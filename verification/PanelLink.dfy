/**
The I2C link between driver and controller when transfers fail. A command that fails
inside `show` can leave the controller waiting for an argument, and then it takes the first
commands of the next call for arguments. What such a controller waits for, whether it is
on, and its start line are followed exactly, over any sequence of commands and failures.
*/
module PanelLink {
  import opened Drawing
  import opened PixelGrid
  import opened Ssd1306

  /**
  The outcome of the I2C transfers of one call: the results of up to six commands, the
  result of the data transfer, and how many of its bytes reached the controller. A command
  that fails does not reach it.
  */
  datatype Bus = Bus(cmd: seq<int>, sent: int, reached: nat)

  predicate WellFormed(bus: Bus, len: nat) {
    |bus.cmd| == 6 && bus.reached <= len && (bus.sent == len ==> bus.reached == len)
  }

  predicate CommandsSucceed(bus: Bus) {
    forall i :: 0 <= i < |bus.cmd| ==> bus.cmd[i] >= 0
  }

  predicate Succeeds(bus: Bus, len: nat) {
    WellFormed(bus, len) && CommandsSucceed(bus) && bus.sent == len
  }

  /** The first command of a `show` that failed; 6 when none did. */
  function FirstFailure(bus: Bus): nat
    requires |bus.cmd| == 6
  {
    if bus.cmd[0] < 0 then 0
    else if bus.cmd[1] < 0 then 1
    else if bus.cmd[2] < 0 then 2
    else if bus.cmd[3] < 0 then 3
    else if bus.cmd[4] < 0 then 4
    else if bus.cmd[5] < 0 then 5
    else 6
  }

  /** No argument is left pending: the two windows are set whole or not at all. */
  predicate Recoverable(bus: Bus)
    requires |bus.cmd| == 6
  {
    FirstFailure(bus) == 0 || FirstFailure(bus) == 3 || FirstFailure(bus) == 6
  }

  /** Every transfer of a `show` of `len` bytes succeeds. */
  function NoFault(len: nat): (bus: Bus)
    ensures Succeeds(bus, len)
  {
    Bus([0, 0, 0, 0, 0, 0], len, len)
  }

  /** The display bytes among the bytes that reached the controller. */
  function Payload(bus: Bus): nat {
    if bus.reached > 0 then bus.reached - 1 else 0
  }

  lemma AllSucceedOrFirstFails(bus: Bus)
    requires |bus.cmd| == 6
    ensures CommandsSucceed(bus) <==> FirstFailure(bus) == 6
    ensures !Recoverable(Bus([0, -5, 0, 0, 0, 0], 0, 0))
  {
  }

  // ----- following the controller

  datatype Link = Link(await: Await, face: Face)

  function LinkOf(c: Controller): Link {
    Link(c.await, c.face)
  }

  /** What the controller waits for when it has taken a byte as an argument. */
  function Consume(a: Await): Await {
    match a
    case ColStart => ColEnd
    case PageStart => PageEnd
    case _ => Nothing
  }

  /** What the controller waits for when `k` of the six commands of a `show` reached it. */
  function AwaitAfter(a: Await, k: nat): Await {
    if k == 0 then a
    else if k == 1 then (if a.Nothing? then ColStart else Consume(a))
    else if k == 2 then (if a.Nothing? then ColEnd else Nothing)
    else if k == 4 then PageStart
    else if k == 5 then PageEnd
    else Nothing
  }

  /**
  The same for the whole link. With an argument pending, the end column is taken for a
  command, and from 0x40 to 0x7F that command sets the start line.
  */
  function ShowLink(l: Link, k: nat, width: nat): Link
    requires width > 0
  {
    Link(AwaitAfter(l.await, k),
         if !l.await.Nothing? && k >= 3 && SetsStartLine(width - 1) then l.face.(startLine := width - 1 - 0x40)
         else l.face)
  }

  /** A byte that as a command at most sets a column nibble of page addressing, or the start line. */
  predicate Harmless(cmd: nat) {
    cmd < 0x20 || SetsStartLine(cmd)
  }

  /** Horizontal addressing, and whatever is pending can be followed on a panel of this width. */
  predicate Tracked(c: Controller, width: nat)
    requires width > 0
  {
    && c.horizontal && !c.await.MemMode?
    && (c.await.Nothing? || Harmless(width - 1))
  }

  /** The controller when `k` of the six commands of a `show` reached it. */
  function Opening(c: Controller, k: nat, width: nat, pages: nat): (c': Controller)
    requires k <= 6 && 0 < width <= c.columns && 0 < pages <= c.rows
    ensures c'.columns == c.columns && c'.rows == c.rows && c'.ram == c.ram
  {
    if k == 0 then c
    else
      var cmd := match k
                 case 1 => SET_COL_ADDR
                 case 2 => 0
                 case 3 => width - 1
                 case 4 => SET_PAGE_ADDR
                 case 5 => 0
                 case _ => pages - 1;
      Ssd1306.Command(Opening(c, k - 1, width, pages), cmd)
  }

  lemma {:induction false} LinkFollowed(c: Controller, k: nat, width: nat, pages: nat)
    requires k <= 6 && 0 < width <= c.columns && 0 < pages <= c.rows && Tracked(c, width)
    ensures Opening(c, k, width, pages).horizontal
    ensures LinkOf(Opening(c, k, width, pages)) == ShowLink(LinkOf(c), k, width)
  {
    if k > 0 {
      LinkFollowed(c, k - 1, width, pages);
    }
  }

  lemma {:induction false} OpeningKeepsMode(c: Controller, k: nat, width: nat, pages: nat)
    requires k <= 6 && ReadyForShow(c, width, pages)
    ensures SameMode(c, Opening(c, k, width, pages)) && Opening(c, k, width, pages).await == AwaitAfter(Nothing, k)
  {
    if k > 0 {
      OpeningKeepsMode(c, k - 1, width, pages);
    }
  }

  lemma WindowsOpened(c: Controller, width: nat, pages: nat)
    requires ReadyForShow(c, width, pages)
    ensures Opening(c, 6, width, pages) == SetWindows(c, width, pages)
  {
    var c3 := Ssd1306.Command(Ssd1306.Command(Ssd1306.Command(c, SET_COL_ADDR), 0), width - 1);
    assert Opening(c, 1, width, pages) == Ssd1306.Command(c, SET_COL_ADDR);
    assert Opening(c, 2, width, pages) == Ssd1306.Command(Opening(c, 1, width, pages), 0);
    assert Opening(c, 3, width, pages) == c3;
    assert Opening(c, 4, width, pages) == Ssd1306.Command(c3, SET_PAGE_ADDR);
    assert Opening(c, 5, width, pages) == Ssd1306.Command(Opening(c, 4, width, pages), 0);
  }

  /** What the six commands do to a ready controller, and to any that can be followed. */
  lemma OpeningFollowed(c: Controller, k: nat, width: nat, pages: nat)
    requires k <= 6 && 0 < width <= c.columns && 0 < pages <= c.rows
    ensures ReadyForShow(c, width, pages) ==>
              && SameMode(c, Opening(c, k, width, pages))
              && (ReadyForShow(Opening(c, k, width, pages), width, pages) <==> k == 0 || k == 3 || k == 6)
    ensures ReadyForShow(c, width, pages) && k == 6 ==> Opening(c, k, width, pages) == SetWindows(c, width, pages)
    ensures Tracked(c, width) ==>
              Opening(c, k, width, pages).horizontal
              && LinkOf(Opening(c, k, width, pages)) == ShowLink(LinkOf(c), k, width)
  {
    if Tracked(c, width) {
      LinkFollowed(c, k, width, pages);
    }
    if ReadyForShow(c, width, pages) {
      WindowsOpened(c, width, pages);
      OpeningKeepsMode(c, k, width, pages);
    }
  }

  /** The link after a user command. */
  function Follow(l: Link, c: Drawing.Command, bus: Bus, width: nat): Link
    requires width > 0 && |bus.cmd| == 6
  {
    if Draws(c) then ShowLink(l, FirstFailure(bus), width)
    else if c.Ignored? || bus.cmd[0] < 0 then l
    else if l.await.Nothing? then l.(face := l.face.(on := c.DisplayOn?))
    else l.(await := Consume(l.await))
  }

  /**
  What a user command does to the controller, with a bus that may fail: a switch command is
  one byte, a drawing command sent whole to a ready controller leaves the picture in its RAM
  and on display, and whatever is pending is followed.
  */
  ghost predicate PanelFollows(before: Controller, c: Drawing.Command, bus: Bus, after: Controller, lit: set<Point>,
                               width: nat, pages: nat, len: nat)
    requires 0 < width <= before.columns && 0 < pages <= before.rows && |bus.cmd| == 6
  {
    && after.columns == before.columns && after.rows == before.rows
    && (c.Ignored? ==> after == before)
    && (c.DisplayOff? ==> after == if bus.cmd[0] < 0 then before else Ssd1306.Command(before, 0xAE))
    && (c.DisplayOn? ==> after == if bus.cmd[0] < 0 then before else Ssd1306.Command(before, 0xAF))
    && (Draws(c) && ReadyForShow(before, width, pages) && Succeeds(bus, len) ==>
          && SameMode(before, after) && AtStart(after, width, pages) && InRam(after, width, pages) == lit
          && (Plain(before) ==> Displayed(after, width, pages) == lit))
    && (Tracked(before, width) ==>
          after.horizontal && LinkOf(after) == Follow(LinkOf(before), c, bus, width))
  }

  lemma SwitchIsFollowed(before: Controller, c: Drawing.Command, bus: Bus, lit: set<Point>,
                         width: nat, pages: nat, len: nat)
    requires 0 < width <= before.columns && 0 < pages <= before.rows && |bus.cmd| == 6
    ensures !Draws(c) ==>
              PanelFollows(before, c, bus,
                           if c.Ignored? || bus.cmd[0] < 0 then before
                           else Ssd1306.Command(before, if c.DisplayOn? then 0xAF else 0xAE),
                           lit, width, pages, len)
  {
  }

  // ----- sessions

  predicate SixEach(buses: seq<Bus>) {
    forall i :: 0 <= i < |buses| ==> |buses[i].cmd| == 6
  }

  /** The link after a session. */
  function FollowAll(l: Link, cs: seq<Drawing.Command>, buses: seq<Bus>, width: nat): Link
    requires |cs| == |buses| && width > 0 && SixEach(buses)
    decreases |cs|
  {
    if cs == [] then l
    else
      var n := |cs| - 1;
      Follow(FollowAll(l, cs[..n], buses[..n], width), cs[n], buses[n], width)
  }

  /**
  Whether the last drawing command of a session was sent whole to a controller that waited
  for nothing; `held` if the session draws nothing.
  */
  predicate SentWhole(held: bool, l: Link, cs: seq<Drawing.Command>, buses: seq<Bus>, width: nat, len: nat)
    requires |cs| == |buses| && width > 0 && SixEach(buses)
    decreases |cs|
  {
    if cs == [] then held
    else
      var n := |cs| - 1;
      if Draws(cs[n]) then FollowAll(l, cs[..n], buses[..n], width).await.Nothing? && Succeeds(buses[n], len)
      else SentWhole(held, l, cs[..n], buses[..n], width, len)
  }

  /** No drawing command of the session leaves an argument pending. */
  predicate Steady(cs: seq<Drawing.Command>, buses: seq<Bus>)
    requires |cs| == |buses| && SixEach(buses)
  {
    forall i :: 0 <= i < |cs| && Draws(cs[i]) ==> Recoverable(buses[i])
  }

  /** Whatever is pending never matters, or never is. */
  predicate Followable(l: Link, cs: seq<Drawing.Command>, buses: seq<Bus>, width: nat)
    requires |cs| == |buses| && width > 0 && SixEach(buses)
  {
    !l.await.MemMode? && (Harmless(width - 1) || (l.await.Nothing? && Steady(cs, buses)))
  }

  /** On the shipped panel a session can be followed unless an addressing mode argument is pending. */
  lemma ShippedPanelIsFollowed(l: Link, cs: seq<Drawing.Command>, buses: seq<Bus>)
    requires |cs| == |buses| && SixEach(buses)
    ensures Followable(l, cs, buses, 128) <==> l.await != MemMode
  {
  }

  /** Prefixes of a session, one request longer. */
  lemma OneMoreRequest(cs: seq<Drawing.Command>, buses: seq<Bus>, i: nat)
    requires i < |cs| == |buses|
    ensures cs[..i + 1][..i] == cs[..i] && buses[..i + 1][..i] == buses[..i]
  {
  }

  /** A controller followed through a session, with the picture in its RAM when it was sent whole. */
  ghost predicate OnTrack(l: Link, held: bool, cs: seq<Drawing.Command>, buses: seq<Bus>, panel: Controller,
                          picture: set<Point>, width: nat, pages: nat, len: nat)
    requires |cs| == |buses| && width > 0 && SixEach(buses)
  {
    && panel.horizontal && !panel.await.MemMode? && LinkOf(panel) == FollowAll(l, cs, buses, width)
    && (Harmless(width - 1) || panel.await.Nothing?)
    && (SentWhole(held, l, cs, buses, width, len) ==> InRam(panel, width, pages) == picture)
  }

  lemma OnTrackNext(l: Link, held: bool, cs: seq<Drawing.Command>, buses: seq<Bus>, i: nat,
                    panel: Controller, picture: set<Point>, panel': Controller, picture': set<Point>,
                    width: nat, pages: nat, len: nat)
    requires i < |cs| == |buses| && SixEach(buses) && width > 0 && pages > 0
    requires Followable(l, cs, buses, width)
    requires OnTrack(l, held, cs[..i], buses[..i], panel, picture, width, pages, len)
    requires width <= panel.columns && pages <= panel.rows
    requires PanelFollows(panel, cs[i], buses[i], panel', picture', width, pages, len)
    requires Draws(cs[i]) || picture' == picture
    ensures OnTrack(l, held, cs[..i + 1], buses[..i + 1], panel', picture', width, pages, len)
  {
    OneMoreRequest(cs, buses, i);
  }

  lemma FollowNext(l: Link, cs: seq<Drawing.Command>, buses: seq<Bus>, width: nat, n: nat)
    requires n < |cs| == |buses| && SixEach(buses) && width > 0
    ensures FollowAll(l, cs[..n + 1], buses[..n + 1], width)
            == Follow(FollowAll(l, cs[..n], buses[..n], width), cs[n], buses[n], width)
  {
    OneMoreRequest(cs, buses, n);
  }

  predicate DrawsNone(cs: seq<Drawing.Command>, first: nat, end: nat)
    requires end <= |cs|
  {
    forall i :: first <= i < end ==> !Draws(cs[i])
  }

  /** Once a drawing command had its six commands through, nothing is pending until the next. */
  lemma {:induction false} NothingPendingAfter(l: Link, cs: seq<Drawing.Command>, buses: seq<Bus>, width: nat,
                                               drawn: nat, n: nat)
    requires drawn < n <= |cs| == |buses| && width > 0 && SixEach(buses)
    requires Draws(cs[drawn]) && CommandsSucceed(buses[drawn]) && DrawsNone(cs, drawn + 1, n)
    ensures FollowAll(l, cs[..n], buses[..n], width).await.Nothing?
    decreases n
  {
    FollowNext(l, cs, buses, width, n - 1);
    AllSucceedOrFirstFails(buses[n - 1]);
    if drawn < n - 1 {
      NothingPendingAfter(l, cs, buses, width, drawn, n - 1);
    }
  }

  lemma {:induction false} SentWholeStays(held: bool, l: Link, cs: seq<Drawing.Command>, buses: seq<Bus>,
                                          width: nat, len: nat, drawn: nat, n: nat)
    requires drawn < n <= |cs| == |buses| && width > 0 && SixEach(buses)
    requires Draws(cs[drawn]) && Succeeds(buses[drawn], len) && DrawsNone(cs, drawn + 1, n)
    requires FollowAll(l, cs[..drawn], buses[..drawn], width).await.Nothing?
    ensures SentWhole(held, l, cs[..n], buses[..n], width, len)
    decreases n
  {
    OneMoreRequest(cs, buses, n - 1);
    if drawn < n - 1 {
      SentWholeStays(held, l, cs, buses, width, len, drawn, n - 1);
    }
  }

  /**
  Whatever failed before, the last two drawing commands bring the RAM up to date when the
  commands of the first succeed and the second is sent whole.
  */
  lemma TwoDrawsRecover(held: bool, l: Link, cs: seq<Drawing.Command>, buses: seq<Bus>, width: nat, len: nat,
                        first: nat, second: nat)
    requires first < second < |cs| == |buses| && width > 0 && SixEach(buses)
    requires Draws(cs[first]) && CommandsSucceed(buses[first]) && DrawsNone(cs, first + 1, second)
    requires Draws(cs[second]) && Succeeds(buses[second], len) && DrawsNone(cs, second + 1, |cs|)
    ensures SentWhole(held, l, cs, buses, width, len)
  {
    NothingPendingAfter(l, cs, buses, width, first, second);
    SentWholeStays(held, l, cs, buses, width, len, second, |cs|);
    assert cs[..|cs|] == cs && buses[..|cs|] == buses;
  }

  /** A `show` that gets its end column across with an argument pending before it. */
  predicate RollsAt(l: Link, cs: seq<Drawing.Command>, buses: seq<Bus>, width: nat, i: nat)
    requires i < |cs| == |buses| && width > 0 && SixEach(buses)
  {
    && Draws(cs[i]) && FirstFailure(buses[i]) >= 3
    && !FollowAll(l, cs[..i], buses[..i], width).await.Nothing?
  }

  lemma StartLineNext(l: Link, cs: seq<Drawing.Command>, buses: seq<Bus>, width: nat, n: nat)
    requires n < |cs| == |buses| && SixEach(buses) && width > 0 && SetsStartLine(width - 1)
    ensures FollowAll(l, cs[..n + 1], buses[..n + 1], width).face.startLine
            == if RollsAt(l, cs, buses, width, n) then width - 1 - 0x40
               else FollowAll(l, cs[..n], buses[..n], width).face.startLine
  {
    FollowNext(l, cs, buses, width, n);
  }

  /**
  The start line is the one the session began with as long as no argument was pending when
  a `show` got its end column across; from then on it is the one that column names.
  */
  lemma {:induction false} StartLineOfSession(l: Link, cs: seq<Drawing.Command>, buses: seq<Bus>, width: nat, n: nat)
    requires n <= |cs| == |buses| && SixEach(buses) && width > 0 && SetsStartLine(width - 1)
    ensures FollowAll(l, cs[..n], buses[..n], width).face.startLine
            == if exists i: nat :: i < n && RollsAt(l, cs, buses, width, i) then width - 1 - 0x40
               else l.face.startLine
    decreases n
  {
    if n > 0 {
      StartLineOfSession(l, cs, buses, width, n - 1);
      StartLineNext(l, cs, buses, width, n - 1);
    }
  }

  /**
  On a panel of 128 columns one failed command rolls the picture: after a `show` that
  failed at its second command, two whole ones leave the RAM up to date and the start line at 63.
  */
  lemma OneFailureRolls(l: Link, len: nat)
    requires l.await.Nothing?
    ensures var cs := [FillAll(true), FillAll(true), FillAll(true)];
            var buses := [Bus([0, -5, 0, 0, 0, 0], 0, 0), NoFault(len), NoFault(len)];
            && SentWhole(false, l, cs, buses, 128, len)
            && FollowAll(l, cs, buses, 128) == Link(Nothing, l.face.(startLine := 63))
  {
    var cs := [FillAll(true), FillAll(true), FillAll(true)];
    var buses := [Bus([0, -5, 0, 0, 0, 0], 0, 0), NoFault(len), NoFault(len)];
    OneMoreRequest(cs, buses, 1);
    OneMoreRequest(cs, buses, 0);
    assert cs[..0] == [] && buses[..0] == [];
    assert FollowAll(l, cs[..1], buses[..1], 128) == Follow(l, cs[0], buses[0], 128);
    assert FollowAll(l, cs[..2], buses[..2], 128)
           == Follow(FollowAll(l, cs[..1], buses[..1], 128), cs[1], buses[1], 128);
    TwoDrawsRecover(false, l, cs, buses, 128, len, 1, 2);
  }
}
