/**
The display controller as far as the driver relies on it: the commands of sections 10.1.3
to 10.1.6 of the SSD1306 data sheet (memory addressing mode, column window, page window,
display start line), the display switch, inversion and the entire-display switch, the
settings with one argument, and data written through the address pointers. Command arguments
keep only the bits that address the controller's RAM (7 for 128 columns, 3 for 8 pages).

The constants are the driver's names; the controller goes by the bytes of the data sheet.

Only horizontal addressing advances pages here; the other two modes and the scrolling
commands, which the driver does not use, are not modelled.
*/
module Ssd1306 {
  import opened Masking
  import opened PixelGrid

  const SET_MEM_ADDR: nat := 0x20
  const SET_COL_ADDR: nat := 0x21
  const SET_PAGE_ADDR: nat := 0x22
  const SET_DISP_START_LINE: nat := 0x40
  const SET_CONTRAST: nat := 0x81
  const SET_CHARGE_PUMP: nat := 0x8D
  const SET_SEG_REMAP: nat := 0xA0
  const SET_ENTIRE_ON: nat := 0xA4
  const SET_NORM_INV: nat := 0xA6
  const SET_MUX_RATIO: nat := 0xA8
  const SET_DISP_OFF: nat := 0xAE
  const SET_DISP_ON: nat := 0xAF
  const SET_COM_OUT_DIR: nat := 0xC0
  const SET_DISP_OFFSET: nat := 0xD3
  const SET_DISP_CLK_DIV: nat := 0xD5
  const SET_PRECHARGE: nat := 0xD9
  const SET_COM_PIN_CFG: nat := 0xDA
  const SET_VCOM_DESEL: nat := 0xDB

  /** The argument that the next command byte will be taken for. */
  datatype Await = Nothing | MemMode | ColStart | ColEnd | PageStart | PageEnd | Setting(cmd: nat)

  /** How the display shows the RAM. */
  datatype Face = Face(
    on: bool,
    startLine: nat,                                  // the RAM row at the top of the display
    inverted: bool, entireOn: bool,
    remapped: bool, flipped: bool)                   // column 127 is SEG0; scan from COM[N]

  datatype Controller = Controller(
    columns: nat, rows: nat,                         // the size of the RAM, in bytes
    face: Face,
    settings: map<nat, nat>,                         // the arguments of the one-argument settings
    horizontal: bool,
    colStart: nat, colEnd: nat, pageStart: nat, pageEnd: nat,
    col: nat, page: nat,                             // the address pointers
    await: Await,
    ram: map<(nat, nat), bv8>)                       // by page and column
  {
    function Cell(page: nat, column: nat): bv8 {
      if (page, column) in ram then ram[(page, column)] else 0
    }
  }

  predicate TakesArgument(cmd: nat) {
    cmd == 0x81 || cmd == 0x8D || cmd == 0xA8 || cmd == 0xD3 || cmd == 0xD5 || cmd == 0xD9 || cmd == 0xDA || cmd == 0xDB
  }

  predicate SetsStartLine(cmd: nat) {
    0x40 <= cmd <= 0x7F
  }

  /** The part of an argument that addresses a RAM of `size` columns or pages. */
  function Argument(arg: nat, size: nat): nat
    requires size > 0
  {
    arg % size
  }

  lemma SmallArgument(n: nat, size: nat)
    requires n < size
    ensures Argument(n, size) == n
  {
    ModulusUnique(n, size, 0, n);
  }

  /** The commands without an argument; others leave the display as it is. */
  function Switch(f: Face, cmd: nat): Face {
    if SetsStartLine(cmd) then f.(startLine := cmd - 0x40)
    else if cmd == 0xA0 || cmd == 0xA1 then f.(remapped := cmd == 0xA1)
    else if cmd == 0xA4 || cmd == 0xA5 then f.(entireOn := cmd == 0xA5)
    else if cmd == 0xA6 || cmd == 0xA7 then f.(inverted := cmd == 0xA7)
    else if cmd == 0xAE || cmd == 0xAF then f.(on := cmd == 0xAF)
    else if cmd == 0xC0 || cmd == 0xC8 then f.(flipped := cmd == 0xC8)
    else f
  }

  /** One command byte. */
  function Command(c: Controller, cmd: nat): (c': Controller)
    requires c.columns > 0 && c.rows > 0
    ensures c'.columns == c.columns && c'.rows == c.rows && c'.ram == c.ram
  {
    match c.await
    case Nothing =>
      if cmd == 0x20 then c.(await := MemMode)
      else if cmd == 0x21 then c.(await := ColStart)
      else if cmd == 0x22 then c.(await := PageStart)
      else if TakesArgument(cmd) then c.(await := Setting(cmd))
      else c.(face := Switch(c.face, cmd))
    case MemMode => c.(horizontal := cmd % 4 == 0, await := Nothing)
    case ColStart => c.(colStart := Argument(cmd, c.columns), col := Argument(cmd, c.columns), await := ColEnd)
    case ColEnd => c.(colEnd := Argument(cmd, c.columns), await := Nothing)
    case PageStart => c.(pageStart := Argument(cmd, c.rows), page := Argument(cmd, c.rows), await := PageEnd)
    case PageEnd => c.(pageEnd := Argument(cmd, c.rows), await := Nothing)
    case Setting(which) => c.(settings := c.settings[which := cmd], await := Nothing)
  }

  /** One data byte, stored at the pointers, which then advance. */
  function Data(c: Controller, b: bv8): Controller {
    var c' := c.(ram := c.ram[(c.page, c.col) := b]);
    if !c.horizontal then c'
    else if c.col != c.colEnd then c'.(col := c.col + 1)
    else c'.(col := c.colStart, page := if c.page != c.pageEnd then c.page + 1 else c.pageStart)
  }

  function Stream(c: Controller, bytes: seq<bv8>): Controller
    decreases |bytes|
  {
    if bytes == [] then c else Data(Stream(c, bytes[..|bytes| - 1]), bytes[|bytes| - 1])
  }

  /** An I2C transfer: only behind the prefix Co=0, D/C=1 are the bytes display data. */
  function Transfer(c: Controller, bytes: seq<bv8>): Controller {
    if bytes != [] && bytes[0] == 0x40 then Stream(c, bytes[1..]) else c
  }

  /** The picture that the RAM holds. */
  function InRam(c: Controller, width: nat, pages: nat): set<Point> {
    set p | p in Grid(width, pages) && BitOf(c.Cell(p.y / 8, p.x), p.y % 8)
  }

  /** The RAM row that line `y` of the display shows. */
  function ShownRow(c: Controller, y: nat): nat {
    if c.rows > 0 then (y + c.face.startLine) % (8 * c.rows) else y
  }

  /**
  The points that the controller lights while it is on: the RAM from the start line on, going
  round, or its negative, or everything.
  */
  function Displayed(c: Controller, width: nat, pages: nat): set<Point> {
    set p | p in Grid(width, pages)
            && (c.face.entireOn || BitOf(c.Cell(ShownRow(c, p.y) / 8, p.x), ShownRow(c, p.y) % 8) != c.face.inverted)
  }

  /** The display follows the RAM from its first row, not inverted. */
  predicate Plain(c: Controller) {
    c.face.startLine == 0 && !c.face.inverted && !c.face.entireOn
  }

  /** With start line 0, and neither inverted nor all on, what is shown is what the RAM holds. */
  lemma UprightDisplay(c: Controller, width: nat, pages: nat)
    requires Plain(c) && pages <= c.rows
    ensures Displayed(c, width, pages) == InRam(c, width, pages)
  {
    forall p | p in Grid(width, pages) ensures ShownRow(c, p.y) == p.y {
      ModulusUnique(p.y, 8 * c.rows, 0, p.y);
    }
  }

  /** With start line 63 on 64 rows a point in the top row is shown in the second. */
  lemma RolledDisplay(c: Controller)
    requires c.face.startLine == 63 && !c.face.inverted && !c.face.entireOn && c.rows == 8
    requires InRam(c, 128, 8) == {Point(0, 0)}
    ensures Displayed(c, 128, 8) == {Point(0, 1)}
  {
    forall p | p in Grid(128, 8) ensures p in Displayed(c, 128, 8) <==> p == Point(0, 1) {
      var row := ShownRow(c, p.y);
      assert row == if p.y == 0 then 63 else p.y - 1;
      assert Point(p.x, row) in Grid(128, 8);
      assert Point(p.x, row) in InRam(c, 128, 8) <==> Point(p.x, row) == Point(0, 0);
    }
    assert Point(0, 1) in Grid(128, 8);
  }

  /** Horizontal addressing with nothing pending: where `show` can start from. */
  predicate ReadyForShow(c: Controller, width: nat, pages: nat) {
    && 0 < width <= c.columns && 0 < pages <= c.rows
    && c.horizontal && c.await == Nothing
  }

  /** The windows cover the frame and the pointers stand at its start. */
  predicate AtStart(c: Controller, width: nat, pages: nat)
    requires width > 0 && pages > 0
  {
    && ReadyForShow(c, width, pages)
    && c.colStart == 0 && c.colEnd == width - 1 && c.pageStart == 0 && c.pageEnd == pages - 1
    && c.col == 0 && c.page == 0
  }

  /** Only windows, pointers, RAM and the pending argument may differ. */
  predicate SameMode(before: Controller, after: Controller) {
    after == before.(colStart := after.colStart, colEnd := after.colEnd, pageStart := after.pageStart,
                     pageEnd := after.pageEnd, col := after.col, page := after.page,
                     await := after.await, ram := after.ram)
  }

  /** The six commands with which `show` sets the two windows. */
  function SetWindows(c: Controller, width: nat, pages: nat): Controller
    requires ReadyForShow(c, width, pages)
  {
    var c1 := Command(c, SET_COL_ADDR);
    var c2 := Command(c1, 0);
    var c3 := Command(c2, width - 1);
    var c4 := Command(c3, SET_PAGE_ADDR);
    var c5 := Command(c4, 0);
    Command(c5, pages - 1)
  }

  lemma WindowsSet(c: Controller, width: nat, pages: nat)
    requires ReadyForShow(c, width, pages)
    ensures var c' := SetWindows(c, width, pages);
            && AtStart(c', width, pages)
            && c'.ram == c.ram && SameMode(c, c')
  {
    SmallArgument(0, c.columns);
    SmallArgument(width - 1, c.columns);
    SmallArgument(0, c.rows);
    SmallArgument(pages - 1, c.rows);
  }

  // ----- streaming a frame

  /** The pointers stand `n` bytes into the frame. */
  ghost predicate PointersAt(c: Controller, n: nat, width: nat, pages: nat)
    requires width > 0 && pages > 0
  {
    c.col == n % width && c.page == (if n == width * pages then 0 else n / width)
  }

  /** The first `n` cells of the frame hold `bytes`; the others are as they were. */
  ghost predicate CellsWritten(start: Controller, c: Controller, bytes: seq<bv8>, n: nat, width: nat, pages: nat)
    requires n <= |bytes|
  {
    forall p: nat, k: nat :: k < width && p < pages ==>
      c.Cell(p, k) == if CellIndex(width, p, k) < n then bytes[CellIndex(width, p, k)] else start.Cell(p, k)
  }

  ghost predicate Streamed(start: Controller, c: Controller, bytes: seq<bv8>, n: nat, width: nat, pages: nat)
    requires width > 0 && pages > 0 && n <= |bytes|
  {
    && c == start.(col := c.col, page := c.page, ram := c.ram)
    && PointersAt(c, n, width, pages) && CellsWritten(start, c, bytes, n, width, pages)
  }

  lemma RowOf(width: nat, pages: nat, n: nat)
    requires width > 0 && n < width * pages
    ensures n == (n / width) * width + n % width && n / width < pages
  {
    if n / width >= pages {
      RowsBelow(width, pages, n / width);
    }
  }

  lemma NextInRow(width: nat, row: nat, column: nat)
    requires column < width
    ensures var n := row * width + column + 1;
            if column + 1 < width then n / width == row && n % width == column + 1
            else n / width == row + 1 && n % width == 0
  {
    if column + 1 < width {
      RowAndColumn(width, row, column + 1);
    } else {
      assert (row + 1) * width == row * width + width;
      RowAndColumn(width, row + 1, 0);
    }
  }

  lemma NextPosition(width: nat, pages: nat, n: nat)
    requires width > 0 && n < width * pages
    ensures n / width < pages
    ensures if n % width + 1 < width then (n + 1) / width == n / width && (n + 1) % width == n % width + 1
            else (n + 1) / width == n / width + 1 && (n + 1) % width == 0
    ensures n + 1 == width * pages <==> n % width == width - 1 && n / width == pages - 1
  {
    RowOf(width, pages, n);
    NextInRow(width, n / width, n % width);
    RowsApart(width, n / width, pages - 1, n % width, width - 1);
    assert (pages - 1) * width + width == pages * width;
  }

  lemma CellsWrittenNext(start: Controller, c: Controller, bytes: seq<bv8>, n: nat, width: nat, pages: nat)
    requires width > 0 && n < |bytes| == width * pages
    requires CellsWritten(start, c, bytes, n, width, pages)
    requires c.col == n % width && c.page == n / width
    ensures CellsWritten(start, Data(c, bytes[n]), bytes, n + 1, width, pages)
  {
    var c' := Data(c, bytes[n]);
    forall p: nat, k: nat | k < width && p < pages
      ensures c'.Cell(p, k) == if CellIndex(width, p, k) < n + 1 then bytes[CellIndex(width, p, k)]
                               else start.Cell(p, k)
    {
      RowOf(width, pages, n);
      RowsApart(width, p, n / width, k, n % width);
      assert CellIndex(width, p, k) == n <==> (p == c.page && k == c.col);
      assert c'.Cell(p, k) == if p == c.page && k == c.col then bytes[n] else c.Cell(p, k);
    }
  }

  lemma StreamNext(start: Controller, c: Controller, bytes: seq<bv8>, n: nat, width: nat, pages: nat)
    requires width > 0 && pages > 0 && AtStart(start, width, pages) && n < |bytes| == width * pages
    requires Streamed(start, c, bytes, n, width, pages)
    ensures Streamed(start, Data(c, bytes[n]), bytes, n + 1, width, pages)
  {
    NextPosition(width, pages, n);
    CellsWrittenNext(start, c, bytes, n, width, pages);
  }

  lemma {:induction false} StreamPrefix(start: Controller, bytes: seq<bv8>, n: nat, width: nat, pages: nat)
    requires width > 0 && pages > 0 && AtStart(start, width, pages) && n <= |bytes| == width * pages
    ensures Streamed(start, Stream(start, bytes[..n]), bytes, n, width, pages)
    decreases n
  {
    if n > 0 {
      StreamPrefix(start, bytes, n - 1, width, pages);
      StreamNext(start, Stream(start, bytes[..n - 1]), bytes, n - 1, width, pages);
      assert bytes[..n][..n - 1] == bytes[..n - 1];
    }
  }

  /** Each cell holds its byte of the frame. */
  ghost predicate FrameInRam(c: Controller, frame: seq<bv8>, width: nat, pages: nat) {
    forall page: nat, column: nat :: page < pages && column < width ==>
      CellIndex(width, page, column) + 1 < |frame| && c.Cell(page, column) == frame[1 + CellIndex(width, page, column)]
  }

  /** A whole frame streamed from the start of its windows is what the controller then shows. */
  lemma FrameIsDisplayed(start: Controller, frame: seq<bv8>, width: nat, pages: nat)
    requires width > 0 && pages > 0 && AtStart(start, width, pages)
    requires IsFrame(frame, width, pages) && frame[0] == PREFIX
    ensures var c := Transfer(start, frame);
            && AtStart(c, width, pages) && c == start.(col := 0, page := 0, ram := c.ram)
            && FrameInRam(c, frame, width, pages)
            && InRam(c, width, pages) == Lit(frame, width, pages)
  {
    WholeFrameStreamed(start, frame, width, pages);
    EndOfFrame(width, pages);
    StreamedIsDisplayed(start, Transfer(start, frame), frame, width, pages);
  }

  /** A frame cut short after `reached` bytes is displayed as far as it got. */
  lemma PartialFrame(start: Controller, frame: seq<bv8>, reached: nat, width: nat, pages: nat)
    requires width > 0 && pages > 0 && AtStart(start, width, pages)
    requires IsFrame(frame, width, pages) && frame[0] == PREFIX && reached <= |frame|
    ensures var c := Transfer(start, frame[..reached]);
            && c == start.(col := c.col, page := c.page, ram := c.ram)
            && CellsWritten(start, c, frame[1..], if reached > 0 then reached - 1 else 0, width, pages)
  {
    if reached > 0 {
      StreamPrefix(start, frame[1..], reached - 1, width, pages);
      assert frame[..reached][1..] == frame[1..][..reached - 1];
    }
  }

  lemma EndOfFrame(width: nat, pages: nat)
    requires width > 0
    ensures (width * pages) % width == 0
  {
    ModulusUnique(width * pages, width, pages, 0);
  }

  lemma WholeFrameStreamed(start: Controller, frame: seq<bv8>, width: nat, pages: nat)
    requires width > 0 && pages > 0 && AtStart(start, width, pages)
    requires IsFrame(frame, width, pages) && frame[0] == PREFIX
    ensures Streamed(start, Transfer(start, frame), frame[1..], width * pages, width, pages)
  {
    StreamPrefix(start, frame[1..], width * pages, width, pages);
    assert frame[1..][..width * pages] == frame[1..];
  }

  lemma StreamedIsDisplayed(start: Controller, c: Controller, frame: seq<bv8>, width: nat, pages: nat)
    requires width > 0 && pages > 0 && IsFrame(frame, width, pages)
    requires Streamed(start, c, frame[1..], width * pages, width, pages)
    ensures FrameInRam(c, frame, width, pages)
    ensures InRam(c, width, pages) == Lit(frame, width, pages)
  {
    forall p: nat, k: nat | p < pages && k < width
      ensures CellIndex(width, p, k) + 1 < |frame| && c.Cell(p, k) == frame[1 + CellIndex(width, p, k)]
    {
      CellInFrame(width, pages, p, k);
      assert frame[1..][CellIndex(width, p, k)] == frame[1 + CellIndex(width, p, k)];
    }
    forall p | p in Grid(width, pages)
      ensures BitOf(c.Cell(p.y / 8, p.x), p.y % 8) <==> LitAt(frame, width, p)
    {
      assert p.y / 8 < pages;
    }
  }

  /** The byte of each cell, and the point behind each bit of the display. */
  lemma CellByCell(c: Controller, frame: seq<bv8>, width: nat, pages: nat, page: nat, column: nat)
    requires FrameInRam(c, frame, width, pages) && page < pages && column < width
    ensures page * width + column + 1 < |frame|
    ensures c.Cell(page, column) == frame[1 + page * width + column]
  {
    assert CellIndex(width, page, column) == page * width + column;
  }

  /**
  What a reader of the panel sees: unless all points are on, the point in column `x` of line
  `y` is bit `row % 8` of the cell in page `row / 8`, or its negative, where `row` is counted
  from the start line.
  */
  lemma PointShown(c: Controller, width: nat, pages: nat, x: nat, y: nat)
    requires c.rows == 8 && x < width && y < 8 * pages
    ensures var row := (y + c.face.startLine) % 64;
            Point(x, y) in Displayed(c, width, pages)
            <==> c.face.entireOn || BitOf(c.Cell(row / 8, x), row % 8) != c.face.inverted
  {
  }

  lemma CellInFrame(width: nat, pages: nat, page: nat, column: nat)
    requires page < pages && column < width
    ensures CellIndex(width, page, column) < width * pages
  {
    RowsApart(width, page, pages, column, 0);
  }
}
