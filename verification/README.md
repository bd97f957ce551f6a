# Verified model of the OLED bonnet driver and the shared-memory handshake

A Dafny model of three parts of the repository, with proofs over every input and every run.

- **The GPIO event pipeline** (`modules/rpi_4b/1_i2c/OLED/module`, `circ_buffer_pow2_elements.c`
  and `gpio_oled_irq.c`). Interrupt handlers push numbered events into a power-of-two ring
  without a lock; a work item drains it into a second ring under a mutex; `read` and `poll`
  serve user programs from there. `Masking` and `RingWindow` hold the index arithmetic,
  `CircularBuffer` and `EventDevice` the code one call at a time (classes), `SpscRing` the
  unlocked ring one memory access at a time, `EventPipeline` the whole system as a step
  machine, `EventLedger`, `EventGuarantees` and `EventProgress` what holds over its runs,
  `Debounce` the rate of rocker events, `EventTiming` what that rate means on the runs. `DeviceInterface` holds the shared constants.
- **The OLED frame buffer** (`i2c_oled.c`). `PixelGrid` gives a buffer its picture, a set of
  lit points; `Drawing` says what each user command does to the picture; `Ssd1306` is the
  display controller; `PanelLink` follows it over failing transfers; `Oled` is the driver (a
  class over a byte array), proved against these.
- **The writer/reader handshake** (`ipc/shared_mem_semaphore`). `Handshake` interleaves the two
  processes, the message being written and read character by character; `HandshakeText` is
  the message format.

Assumptions on the surroundings:

- Memory is sequentially consistent; the source marks its barriers as still to be done.
- Handlers do not interrupt one another and a work item does not run beside itself, so ring 1
  has one producer and one consumer. The source calls the ring not thread safe and uses it this way.
- `CIRC_CNT(h, t, s)` is `(h - t) & (s - 1)` and `CIRC_SPACE(h, t, s)` is `CIRC_CNT(t, h + 1, s)`
  (linux/circ_buf.h is not part of this repository). Ring capacities are at most 2^30, because
  head and tail are `int`.
- Scheduling work sets a pending flag that is cleared as the work item starts; a caller of
  `poll` that found nothing sleeps only if its wait-queue entry was not triggered since it was
  registered.
- Structure sizes are those of a 64-bit kernel: a bulk record has 96 bytes. The debounce
  product `time_diff * 1000` fits a `long`.
- The controller follows sections 10.1.3 to 10.1.6 of the SSD1306 data sheet (addressing mode,
  column window, page window, start line) and the bytes of its command table for inversion,
  entire display, segment and scan direction, and the settings with an argument; an I2C command
  that fails does not reach it. Panel sizes are general: any width and height that fit a byte,
  and RAM at least that large.
- Handshake: fresh semaphores (1 and 0), both processes attached, no signals, semaphore calls
  succeed, and no key takes the value out of the range of an `int`.
- Calls out of the code are parameters: allocation success, jiffies, copy faults, bus results,
  uninitialised locals, keys.

Where the code falls short of what one would expect of it, the model follows the code and the
exact condition is proved: reads of a full second ring return nothing and the ring then stays
full for ever (`ReadRecords`, `FullForEver`), which does happen (`FillWithoutReading`,
`RingTwoFillsUp`); a read of more than is held removes records and reports an error
(`ReadReportsWhatItTook`); the two buttons are not debounced (`StoredJiffySpacesEvents`); a
pixel write can leave the buffer (`PixelWriteInBuffer`); a transfer that fails inside a window
command leaves the controller waiting for an argument (`Show`). Two whole drawing requests
later its RAM holds the picture again (`TwoDrawsRecover`), but on the 128-column panel the end
column 127 has then been taken for the command that sets start line 63, and the picture stays
rolled by one row (`StartLineOfSession`, `OneFailureRolls`, `RolledDisplay`) until probe
configures the controller again.

Sizes other than the shipped 128 by 64 are covered too. On a height that is not a multiple of
8 the byte-wise fill and a filled rectangle differ in the padding rows (`FullBoxIsFill`).

Check with `dafny verify dfyconfig.toml`.

## Model

| member | source | states |
|---|---|---|
| `Masking.AndIsBitwise` | modules/rpi_4b/1_i2c/OLED/module/circ_buffer_pow2_elements.c:23 | the arithmetic model of `&` used for every mask is conjunction in every bit position |
| `Masking.CapacityTest` | modules/rpi_4b/1_i2c/OLED/module/circ_buffer_pow2_elements.c:22-23 | for every n > 0, `n & (n - 1)` is zero exactly when n is a power of two |
| `Masking.MaskedIndices` | modules/rpi_4b/1_i2c/OLED/module/circ_buffer_pow2_elements.c:61-79 | for every power-of-two capacity up to 2^30 the masked count is the true distance from tail to head, negative differences and 64-bit conversion included, count plus space is capacity - 1, and the masked advance wraps at the end |
| `CircularBuffer.CircularBufferPow2.Init` | modules/rpi_4b/1_i2c/OLED/module/circ_buffer_pow2_elements.c:15-39 | refuses exactly the capacities that are not powers of two with -1 and reports -ENOMEM when the allocation fails; otherwise new storage of the capacity asked for with both indices 0, an empty queue up to 2^30 |
| `CircularBuffer.CircularBufferPow2.Empty` | modules/rpi_4b/1_i2c/OLED/module/circ_buffer_pow2_elements.c:46-51 | true exactly when the queue is empty |
| `CircularBuffer.CircularBufferPow2.Clear` | modules/rpi_4b/1_i2c/OLED/module/circ_buffer_pow2_elements.c:53-59 | the queue becomes empty |
| `CircularBuffer.CircularBufferPow2.Size` | modules/rpi_4b/1_i2c/OLED/module/circ_buffer_pow2_elements.c:61-68 | the length of the queue |
| `CircularBuffer.CircularBufferPow2.Space` | modules/rpi_4b/1_i2c/OLED/module/circ_buffer_pow2_elements.c:70-79 | capacity - 1 less the length of the queue |
| `CircularBuffer.CircularBufferPow2.Push` | modules/rpi_4b/1_i2c/OLED/module/circ_buffer_pow2_elements.c:92-115 | fails exactly on a queue of capacity - 1 elements and then changes nothing; otherwise appends the element |
| `CircularBuffer.CircularBufferPow2.Front` | modules/rpi_4b/1_i2c/OLED/module/circ_buffer_pow2_elements.c:117-130 | null exactly on an empty queue, otherwise the slot that holds the oldest element |
| `CircularBuffer.CircularBufferPow2.Pop` | modules/rpi_4b/1_i2c/OLED/module/circ_buffer_pow2_elements.c:132-145 | removes the oldest element; an empty queue stays empty |
| `SpscRing.ProducerRefines` | modules/rpi_4b/1_i2c/OLED/module/circ_buffer_pow2_elements.c:92-115 | each single memory access of a push, with the consumer anywhere and the loaded tail stale, keeps the invariant and is one step of an atomic bounded queue: nothing, one look at the queue, one append after seeing room, or one refusal after seeing it full |
| `SpscRing.ConsumerRefines` | modules/rpi_4b/1_i2c/OLED/module/circ_buffer_pow2_elements.c:117-145 | each single memory access of front, copy and pop acts on the queue as nothing or as the removal of its oldest element, and the copy removed is that element; pop never finds the ring empty |
| `SpscRing.ProducerWritesFreeSlot` | modules/rpi_4b/1_i2c/OLED/module/circ_buffer_pow2_elements.c:102-104 | while push copies, its slot holds no queued element and is not the slot the consumer is copying |
| `SpscRing.RefusedExactlyWhenFull` | modules/rpi_4b/1_i2c/OLED/module/circ_buffer_pow2_elements.c:95-111 | in every run a push is refused only if the queue was full at its own load of tail, an earlier step of the run, and goes on to copy only if it had room then, whatever was removed before the test |
| `SpscRing.EveryRunIsFifo` | modules/rpi_4b/1_i2c/OLED/module/circ_buffer_pow2_elements.c:92-145 | in every interleaving of one producer and one consumer, at every point, the elements taken out followed by the queue are the elements put in |
| `EventDevice.EventDevice.MakeRecord` | modules/rpi_4b/1_i2c/OLED/module/gpio_oled_irq.c:568-572 | the loop over the ten bulk words gives the record of the event: its event kept, word i the event number plus i in 64 bits |
| `EventData.ReadDeliversUnlessFull` | modules/rpi_4b/1_i2c/OLED/module/gpio_oled_irq.c:267 | a read of no more records than are held, with no fault, is served exactly when the ring is not full; on a full ring it returns 0 |
| `EventData.ReadReportsWhatItTook` | modules/rpi_4b/1_i2c/OLED/module/gpio_oled_irq.c:267-287 | the return value accounts for the records removed exactly when the request is malformed, the ring is full, the request can be served whole, or there is nothing to take; asked for two with one held, it removes one and reports -EPERM |
| `EventData.ReadGoes` | modules/rpi_4b/1_i2c/OLED/module/gpio_oled_irq.c:257-294 | for every byte count, holding and fault: a count that is no multiple of 96 returns -1, nothing asked or a full ring returns 0, a request within what is held and ahead of the fault is served whole, and any other removes what was copied and returns -1 |
| `Debounce.AcceptsExactly` | modules/rpi_4b/1_i2c/OLED/module/gpio_oled_irq.c:495-504 | the truncated millisecond test accepts exactly when 1000 times the jiffies passed reach 20 times HZ |
| `Debounce.StoredJiffySpacesEvents` | modules/rpi_4b/1_i2c/OLED/module/gpio_oled_irq.c:416-430 | a handler that stores the jiffy of an accepted event accepts a later one exactly when it is 20 ms away; one that leaves it at 0, as the two buttons do, accepts every later one |
| `Debounce.WindowRate` | modules/rpi_4b/1_i2c/OLED/module/gpio_oled_irq.c:490-507 | if only the rocker fires and jiffies do not go back, any window of d jiffies accepts at most floor(1000 d / (20 HZ)) + 1 events |
| `Debounce.EmptiedOftenNeverDrops` | modules/rpi_4b/1_i2c/OLED/module/gpio_oled_irq.c:490-532 | a ring of capacity C emptied at least once in every window shorter than C - 1 debounce intervals never drops a rocker event |
| `EventTiming.RockerRate` | modules/rpi_4b/1_i2c/OLED/module/gpio_oled_irq.c:490-507 | on any run of the pipeline with debounced events, the steps of a window of d jiffies accept at most floor(1000 d / (20 HZ)) + 1 rocker events |
| `EventTiming.NeverRefused` | modules/rpi_4b/1_i2c/OLED/module/gpio_oled_irq.c:484-537 | on any run of the pipeline, word-by-word accesses and stale tail loads included: if before each load of tail by a push ring 1 was empty at most d jiffies ago, and has room for that many rocker events, the button events since and a push then in progress, no event is dropped at capture |
| `EventTiming.RockerAloneNeverRefused` | modules/rpi_4b/1_i2c/OLED/module/gpio_oled_irq.c:490-532 | on any run with rocker events only, if at each load of tail ring 1 was empty and no push in progress within a window shorter than capacity - 1 debounce intervals, no event is ever lost at ring 1 |
| `EventDevice.EventDevice.Init` | modules/rpi_4b/1_i2c/OLED/module/gpio_oled_irq.c:214-247 | both rings empty, on new storage, with 8 and 16 slots and polling enabled, or -ENOMEM when an allocation fails |
| `EventDevice.EventDevice.Capture` | modules/rpi_4b/1_i2c/OLED/module/gpio_oled_irq.c:435-441 | numbers the event with its handler's next number, appends it to ring 1 unless full, and schedules the work item |
| `EventDevice.EventDevice.Button5Irq` | modules/rpi_4b/1_i2c/OLED/module/gpio_oled_irq.c:410-444 | accepts on the time since jiffy 0 only; an accepted event is captured, a bounced one changes nothing |
| `EventDevice.EventDevice.Button6Irq` | modules/rpi_4b/1_i2c/OLED/module/gpio_oled_irq.c:447-481 | the same for button 6 |
| `EventDevice.RockerButton` | modules/rpi_4b/1_i2c/OLED/module/gpio_oled_irq.c:512-527 | the button of the first matching line, in the order of the enumeration; the uninitialised value when no line matches |
| `EventDevice.EventDevice.RockerIrq` | modules/rpi_4b/1_i2c/OLED/module/gpio_oled_irq.c:484-537 | accepts on the time since the last accepted event, stores the new jiffy, and reports the button of the matching line |
| `EventDevice.EventDevice.PassOn` | modules/rpi_4b/1_i2c/OLED/module/gpio_oled_irq.c:562-581 | one event is expanded into ring 2 with one wake-up exactly when there is room; otherwise it is lost |
| `EventDevice.EventDevice.DoWork` | modules/rpi_4b/1_i2c/OLED/module/gpio_oled_irq.c:542-584 | undisturbed, empties ring 1; everything goes to ring 2 when it fits, otherwise the oldest events fill it up; expanded, in order, with one wake-up each |
| `EventDevice.EventDevice.ReadRecords` | modules/rpi_4b/1_i2c/OLED/module/gpio_oled_irq.c:250-299 | for every byte count and every copy fault, what is returned and what is removed, malformed counts and full ring included: always the oldest records, exactly those copied out; a request within what is held is served exactly when the ring is not full; and the exact condition under which the return value accounts for what was removed |
| `EventDevice.FillWithoutReading` | modules/rpi_4b/1_i2c/OLED/module/gpio_oled_irq.c:257-289 | a sequence of calls on a new device, fifteen presses and three work items, after which ring 1 is empty, ring 2 holds fifteen records, and a read of one record returns 0 and gives nothing |
| `EventDevice.EventDevice.PollMask` | modules/rpi_4b/1_i2c/OLED/module/gpio_oled_irq.c:380-407 | readable exactly when ring 2 holds a record; hang-up exactly when it is empty and polling was released |
| `EventDevice.EventDevice.Ioctl` | modules/rpi_4b/1_i2c/OLED/module/gpio_oled_irq.c:302-316 | the release command, and no other, disables polling and wakes the queue |
| `EventPipeline.StepRefines` | modules/rpi_4b/1_i2c/OLED/module/gpio_oled_irq.c:437-583 | every step of handler, work item, read, poll and ioctl, with ring 1 accessed word by word, keeps the invariant and is one labelled step of an atomic pipeline, in which an event is dropped exactly at a ring seen full |
| `EventLedger.StepKeepsLedger` | modules/rpi_4b/1_i2c/OLED/module/gpio_oled_irq.c:437-583 | each labelled step keeps every accepted event in exactly one place, in acceptance order, with its data intact and its number right |
| `EventLedger.NothingLostOrReordered` | modules/rpi_4b/1_i2c/OLED/module/gpio_oled_irq.c:437-583 | in every run the accepted events without those dropped at either ring, in acceptance order, are the records users got, then ring 2, the worker's event, ring 1 and the event being pushed; and each dropped one was dropped because ring 1 was full at its own push's load of tail, or ring 2 was full under the mutex |
| `EventGuarantees.EveryRunIsResponsive` | modules/rpi_4b/1_i2c/OLED/module/gpio_oled_irq.c:386-404 | in every reachable state a waiting poller that was not woken has nothing to report or the waker is about to wake it, and an event in ring 1 has a work item pending or running or a handler about to schedule one |
| `EventGuarantees.EveryPushSchedules` | modules/rpi_4b/1_i2c/OLED/module/gpio_oled_irq.c:437-443 | in every run a handler whose push is over, accepted or refused, goes on to schedule the work item and leaves off only by having scheduled it |
| `EventGuarantees.PollAnswers` | modules/rpi_4b/1_i2c/OLED/module/gpio_oled_irq.c:380-407 | in every run a caller of poll leaves its test only while the mutex is free: with an answer exactly when ring 2 holds a record or polling was released, otherwise on its way to sleep |
| `EventGuarantees.ReleaseDisables` | modules/rpi_4b/1_i2c/OLED/module/gpio_oled_irq.c:308-312 | the release forbids sleeping in one step and wakes every caller in a later one |
| `EventProgress.CapturedEventsGetTaken` | modules/rpi_4b/1_i2c/OLED/module/gpio_oled_irq.c:542-584 | in every reachable state with an event in ring 1 the work item can take a step, unless a handler is about to schedule it; each of its steps brings it nearer to an empty ring, and no read or poll sets it back |
| `EventProgress.WorkItemFinishes` | modules/rpi_4b/1_i2c/OLED/module/gpio_oled_irq.c:542-584 | in any stretch of a run with no capture and no scheduling the work item takes at most a bounded number of steps, and when it can take no more, with no handler about to schedule it, ring 1 is empty |
| `EventProgress.ReadsDeliver` | modules/rpi_4b/1_i2c/OLED/module/gpio_oled_irq.c:250-299 | in every reachable state a read can be made exactly when the mutex is free, and gives exactly the oldest records the request is due: all it asked for if held, without fault and off the full ring |
| `EventProgress.RingTwoFillsUp` | modules/rpi_4b/1_i2c/OLED/module/gpio_oled_irq.c:219-247 | there is a run of the system with 8 and 16 slots, from its initial state, that ends with 15 records in ring 2 |
| `EventProgress.FullStepChangesNothing` | modules/rpi_4b/1_i2c/OLED/module/gpio_oled_irq.c:257-289 | no step of the pipeline changes a full ring 2, and a read of it delivers nothing |
| `EventProgress.FullForEver` | modules/rpi_4b/1_i2c/OLED/module/gpio_oled_irq.c:257-289 | from a state with ring 2 full, every later state has the same ring 2 and nothing more was delivered |
| `EventGuarantees.NumbersGrow` | modules/rpi_4b/1_i2c/OLED/module/gpio_oled_irq.c:437-439 | two events of one handler are numbered in acceptance order while its 64-bit counter has not wrapped |
| `EventGuarantees.EventsAreNumbered` | modules/rpi_4b/1_i2c/OLED/module/gpio_oled_irq.c:435-439 | in every run each handler counts from 0 in ones, in 64 bits, each accepted event carries its handler's next number, and the two buttons report 0 and 1 |
| `EventGuarantees.DeliveredInOrder` | modules/rpi_4b/1_i2c/OLED/module/gpio_oled_irq.c:267-287 | any two delivered records are expansions of accepted events in acceptance order, with growing numbers when one handler made both |
| `EventGuarantees.DeliveredButtons` | modules/rpi_4b/1_i2c/OLED/module/gpio_oled_irq.c:267-287 | in every run a delivered record of a button 5 event carries button 0 and one of a button 6 event button 1 |
| `EventGuarantees.CounterAddsUp` | modules/rpi_4b/1_i2c/OLED/module/gpio_oled_irq.c:437-439 | in every run a handler's counter is, in 64 bits, the number of its delivered, pending and dropped events |
| `PixelGrid.PixelToBitAndBack` | modules/rpi_4b/1_i2c/OLED/module/i2c_oled.c:217-220 | every pixel of the grid has a bit behind the prefix byte, and that bit belongs to that pixel |
| `PixelGrid.BitToPixelAndBack` | modules/rpi_4b/1_i2c/OLED/module/i2c_oled.c:217-220 | every bit behind the prefix byte belongs to a pixel of the grid, whose bit it is |
| `PixelGrid.PointInPicture` | modules/rpi_4b/1_i2c/OLED/module/i2c_oled.c:217-220 | a point of the grid is lit exactly when bit y mod 8 of buffer byte 1 + (y / 8) * width + x is set |
| `PixelGrid.BitsOfByte` | modules/rpi_4b/1_i2c/OLED/module/i2c_oled.c:219-220 | bit k of a byte is the one of weight 2^k, so the topmost of eight pixels is the least bit |
| `PixelGrid.WithBitSetsOne` | modules/rpi_4b/1_i2c/OLED/module/i2c_oled.c:220 | the masked write sets one bit to the colour and keeps the other seven |
| `PixelGrid.RowPaints` | modules/rpi_4b/1_i2c/OLED/module/i2c_oled.c:255-259 | writing one bit of a run of bytes paints exactly that row of pixels |
| `PixelGrid.PictureDeterminesFrame` | modules/rpi_4b/1_i2c/OLED/module/i2c_oled.c:403-412 | two buffers with the same prefix show the same picture exactly when they are equal byte for byte |
| `Drawing.PixelWriteInBuffer` | modules/rpi_4b/1_i2c/OLED/module/i2c_oled.c:217-220 | a pixel write stays inside the buffer exactly when its page plus the pages its column runs on by is less than the number of pages; (0, 64) on the 128 by 64 panel does not |
| `Drawing.WriteMeans` | modules/rpi_4b/1_i2c/OLED/module/i2c_oled.c:617-731 | each drawing byte string, by its literal bytes, point by point: which points are lit afterwards in terms of those lit before |
| `Drawing.IoctlMeans` | modules/rpi_4b/1_i2c/OLED/module/i2c_oled.c:734-780 | each ioctl code, by its literal value: which switches, which draws, and which points are lit afterwards |
| `Drawing.BoxesKeepPadding` | modules/rpi_4b/1_i2c/OLED/module/i2c_oled.c:274-289 | no rectangle, whatever its arguments, changes a padding row below the screen |
| `Drawing.FullBoxIsFill` | modules/rpi_4b/1_i2c/OLED/module/i2c_oled.c:180-197 | a filled rectangle over the whole screen and a fill give the same picture exactly when the padding points already had the colour; on 8 by 12 pixels they differ |
| `Drawing.FillForgets` | modules/rpi_4b/1_i2c/OLED/module/i2c_oled.c:642-655 | of any sequence of commands only what follows the last fill or clear can be seen |
| `Drawing.DrawAllInParts` | modules/rpi_4b/1_i2c/OLED/module/i2c_oled.c:617-780 | a session is its parts one after the other, down to single commands |
| `Drawing.FillEqualsFullBox` | modules/rpi_4b/1_i2c/OLED/module/i2c_oled.c:180-197 | the byte-wise fill and a filled rectangle over the whole screen leave the same buffer exactly when the padding bits already had the colour, so always when the height is a multiple of 8 |
| `Ssd1306.WindowsSet` | modules/rpi_4b/1_i2c/OLED/module/i2c_oled.c:136-163 | the six commands, by the driver's names, set both windows of a controller that goes by the data sheet's bytes to the whole frame and both address pointers to its start, and touch neither display data nor anything about how it is shown |
| `Ssd1306.FrameIsDisplayed` | modules/rpi_4b/1_i2c/OLED/module/i2c_oled.c:165-175 | a whole frame streamed from there puts buffer byte 1 + page * width + column into each RAM cell, so that the RAM holds the buffer's picture, and brings the pointers back to the start |
| `Ssd1306.CellByCell` | modules/rpi_4b/1_i2c/OLED/module/i2c_oled.c:165-175 | after a whole frame each RAM cell holds buffer byte 1 + page * width + column |
| `Ssd1306.PartialFrame` | modules/rpi_4b/1_i2c/OLED/module/i2c_oled.c:167-173 | a frame cut short is stored exactly as far as its bytes reached the controller |
| `Ssd1306.UprightDisplay` | modules/rpi_4b/1_i2c/OLED/module/i2c_oled.c:442 | with start line 0, not inverted and not all on, as probe leaves it, what is shown is what the RAM holds |
| `Ssd1306.PointShown` | modules/rpi_4b/1_i2c/OLED/module/i2c_oled.c:442 | what a reader of the panel sees at a point: its bit of its cell counted from the start line, its negative when inverted, lit when all are on |
| `Ssd1306.RolledDisplay` | modules/rpi_4b/1_i2c/OLED/module/i2c_oled.c:442 | with start line 63 on 64 rows, not inverted, a point in the top row is shown in the second |
| `PanelLink.LinkFollowed` | modules/rpi_4b/1_i2c/OLED/module/i2c_oled.c:136-163 | for a controller in horizontal addressing, however many of the six commands arrive and whatever window or setting argument was pending before (on the 128-column panel; on any panel with nothing pending), what it then waits for, its switches and its start line are given in closed form |
| `PanelLink.ShippedPanelIsFollowed` | modules/rpi_4b/1_i2c/OLED/module/i2c_oled.c:131-176 | on 128 columns every session with every outcome of the bus can be followed unless an addressing mode argument is pending at its start |
| `PanelLink.TwoDrawsRecover` | modules/rpi_4b/1_i2c/OLED/module/i2c_oled.c:131-176 | whatever failed earlier in a session, its last two drawing requests bring the RAM up to date when the commands of the first succeed and the second is sent whole, switch requests between and after them included |
| `PanelLink.StartLineOfSession` | modules/rpi_4b/1_i2c/OLED/module/i2c_oled.c:137-148 | on a panel whose end column is a start line command, the start line after any session is that one exactly when some show got its end column across with an argument pending before it, and otherwise the one the session began with |
| `PanelLink.OneFailureRolls` | modules/rpi_4b/1_i2c/OLED/module/i2c_oled.c:137-148 | on 128 columns, one show that fails at its second command and two whole ones end with the RAM up to date, nothing pending and start line 63 |
| `Oled.Oled.SetPixel` | modules/rpi_4b/1_i2c/OLED/module/i2c_oled.c:201-221 | for coordinates that index into the buffer, sets the pixel that owns the addressed bit to the colour and no other; on screen that is the pixel named |
| `Oled.Oled.GetPixel` | modules/rpi_4b/1_i2c/OLED/module/i2c_oled.c:225-239 | for coordinates that index into the buffer, 1 exactly when the pixel that owns the addressed bit is lit; on screen that is the pixel named |
| `Oled.Oled.Fill` | modules/rpi_4b/1_i2c/OLED/module/i2c_oled.c:180-197 | the picture becomes the whole grid, padding rows included, or nothing; the prefix stays |
| `Oled.Oled.FillRect` | modules/rpi_4b/1_i2c/OLED/module/i2c_oled.c:243-263 | exactly the points of the rectangle take the colour |
| `Oled.Oled.Rect` | modules/rpi_4b/1_i2c/OLED/module/i2c_oled.c:267-296 | for all byte arguments, point by point: exactly the on-screen part of the rectangle, or the points of that part in its first or last column or row, take the colour |
| `Oled.BorderIsFourStrips` | modules/rpi_4b/1_i2c/OLED/module/i2c_oled.c:291-294 | the four overlapping strips are exactly the points of the clipped rectangle that touch its outside |
| `Oled.Oled.HLine` | modules/rpi_4b/1_i2c/OLED/module/i2c_oled.c:300-304 | exactly the on-screen part of the line takes the colour |
| `Oled.Oled.VLine` | modules/rpi_4b/1_i2c/OLED/module/i2c_oled.c:308-312 | exactly the on-screen part of the line takes the colour |
| `Oled.Oled.Show` | modules/rpi_4b/1_i2c/OLED/module/i2c_oled.c:131-176 | from a ready controller, success stores the picture byte by byte, shows it when the display follows the RAM from line 0, and returns the pointers to the start; a failed command stores nothing; a short transfer stores what reached the controller; nothing about how the RAM is shown changes; the controller is ready again exactly when no command failed or the first to fail was one that opens a window; with an argument already pending, what the controller waits for next and its start line are fixed for every outcome of the bus |
| `Oled.Oled.WriteCmdData` | modules/rpi_4b/1_i2c/OLED/module/i2c_oled.c:343-352 | the data byte is sent only after a command that reported 0; what reached the controller is fixed for every pair of results |
| `Oled.Oled.Configure` | modules/rpi_4b/1_i2c/OLED/module/i2c_oled.c:422-525 | when every transfer succeeds, from every pending argument and every addressing mode: horizontal addressing, nothing pending, switched on, start line 0, following the RAM and not inverted, both directions set, and every setting at its value, by the command bytes of the data sheet; the RAM is untouched |
| `Oled.Oled.Probe` | modules/rpi_4b/1_i2c/OLED/module/i2c_oled.c:402-573 | when allocations and transfers succeed, on a controller in any state, ends with the opening picture, given point by point, in the buffer and displayed by a ready controller with all settings made |
| `Oled.OpeningPicture` | modules/rpi_4b/1_i2c/OLED/module/i2c_oled.c:532-566 | the picture of probe point by point: three pixels, a 20 by 10 box, a horizontal and a vertical line |
| `Oled.Oled.WriteBytes` | modules/rpi_4b/1_i2c/OLED/module/i2c_oled.c:617-731 | by literal bytes and point by point, what every byte string does to the picture, except a pixel write past the buffer; 01 and 02 switch a controller that waits for nothing off and on; a drawing string sent whole to a ready plain controller is displayed; all other strings change nothing; the whole count is reported; whatever is pending is followed |
| `Oled.Oled.IoctlCommand` | modules/rpi_4b/1_i2c/OLED/module/i2c_oled.c:734-780 | by literal codes, what each does to picture and controller: off, on, everything lit, nothing lit; all others change nothing; -EPERM exactly for codes that are not in the table |
| `Oled.RequestMeans` | modules/rpi_4b/1_i2c/OLED/module/i2c_oled.c:617-780 | a write means its bytes if they arrived and nothing otherwise, an ioctl its code |
| `Oled.Oled.Session` | modules/rpi_4b/1_i2c/OLED/module/i2c_oled.c:617-780 | over any sequence of writes and ioctls without a pixel write past the buffer, the buffer follows the fold of the commands on the picture whatever the bus does; a controller in horizontal addressing is followed exactly, failures that leave arguments pending included; if the last drawing request was sent whole with nothing pending, its RAM holds the picture, and shows it when it follows the RAM from line 0 |
| `HandshakeText.TextFits` | ipc/shared_mem_semaphore/writer.cpp:206 | every formatted message has at most 35 characters, so it fits the 512-character buffer |
| `HandshakeText.TextDeterminesNumbers` | ipc/shared_mem_semaphore/writer.cpp:206 | a message determines the process id and the value that it was formatted from |
| `HandshakeText.DigitsReadBack` | ipc/shared_mem_semaphore/writer.cpp:206 | reading the decimal digits back gives the number |
| `Handshake.NextKeepsInv` | ipc/shared_mem_semaphore/writer.cpp:167-234 | every step of either process keeps the token count, the buffer contents, the shutdown order and the reading order |
| `Handshake.TokenIsExclusive` | ipc/shared_mem_semaphore/writer.cpp:114-125 | in every reachable state before the shutdown post exactly one of the two semaphores and the two processes has the token, and a printing reader always faces a whole message |
| `Handshake.OnlyHolderWrites` | ipc/shared_mem_semaphore/writer.cpp:191-213 | in every run only a writer that holds the token, alone, changes the buffer |
| `Handshake.NeverHalfAMessage` | ipc/shared_mem_semaphore/reader.cpp:119-137 | whatever the reader prints in any run is the latest message posted whole, or the empty fresh buffer |
| `Handshake.LockStepDelivery` | ipc/shared_mem_semaphore/reader.cpp:116-137 | at every point the messages printed are the messages written or lag by one; only the shutdown post can add one repeat of the latest; a reader that exited printed them all |
| `Handshake.KeysMoveValue` | ipc/shared_mem_semaphore/writer.cpp:167-188 | in every run the value starts at 0 and changes only with the third character of an arrow key, 65 adding and 66 subtracting one; 27 and then 91 lead there, and q ends the loop |
| `Handshake.MessagesTellKeys` | ipc/shared_mem_semaphore/writer.cpp:167-211 | in every run each arrow key in what was typed has one message, in order, with the ups less the downs up to that key, and what the reader prints are those texts |
| `Handshake.ArrowsInFront` | ipc/shared_mem_semaphore/writer.cpp:173-188 | how typed characters read as arrow keys, broken escape sequences included |
| `Handshake.TenIsTheLast` | ipc/shared_mem_semaphore/writer.cpp:199-206 | a posted message has the value's text; the one for 10 sets STATE_2 and no other message follows it; after any other STATE_1 is there and the writer runs on |
| `Handshake.NothingAfterExit` | ipc/shared_mem_semaphore/reader.cpp:129-137 | after the reader's exit no further message is written or printed |
| `Handshake.WhoCanStep` | ipc/shared_mem_semaphore/writer.cpp:190-196 | the reader is stuck exactly when it exited or waits with nothing posted, the writer exactly when it finished or waits with the token elsewhere |
| `Handshake.NoDeadlock` | ipc/shared_mem_semaphore/writer.cpp:190-196 | in every reachable state a writer kept waiting has a live reader that can release it, and until both have exited one of them can move |
| `Handshake.ShutdownReachesReader` | ipc/shared_mem_semaphore/writer.cpp:230-234 | at every point after the final post STATE_2 is there, a live reader can move and never waits in vain, and each step has brought it one nearer to its exit: its current pass and at most one more |

## Left out

- Init: a power-of-two capacity above 2^30 is accepted as in the source and its fields are given, but nothing is claimed about it as a queue.
- Push: an element is one value here; its copy word by word is in `SpscRing`.
- SetPixel: requires that the coordinates index into the buffer, because the source does not check them; what a write outside the buffer does to memory is not modelled.
- GetPixel: the same requirement; nothing in the source calls `get_pixel`.
- WriteBytes: excludes the pixel writes past the buffer, which the source accepts; `PixelWriteInBuffer` says which they are.
- Session: excludes the same pixel writes; the controller is followed in horizontal addressing, with no addressing mode argument pending, and on panels whose end column is no command of another kind, unless nothing is ever left pending.
- FillRect: requires a rectangle inside the grid; its only caller clips to it.
- Show: nothing is claimed about the RAM when the controller starts with an argument pending or in another addressing mode; what it then waits for is.
- Configure: failing transfers and the early returns they cause are not modelled.
- Probe: failing allocations and transfers, and the early returns they cause, are not modelled.
- EmptiedOftenNeverDrops: counts ring 1 only and takes the rocker alone; `NeverRefused` covers the interleavings and the buttons.
- DeliveredInOrder: numbers are compared only while the handler's 64-bit counter has not wrapped.
- The two processes and the pipeline are step machines on values; a program-shaped version of the concurrent code is not given beside the sequential classes.
- `EventPipeline` accepts an event at any time; `TimedRun` in `EventTiming` narrows its runs to debounced ones. Lines with hardware debounce are in `EventDevice` only.
- Weak memory ordering, interrupt nesting, and several work items at once.
- `events_pending_to_end`, and the fields `size` and `peak` of the ring, which stay 0.
- Registration, probing and removal of GPIO lines, interrupt and device set-up, logging, and releasing memory.
- Scrolling, vertical and page addressing of the controller; the electrical effect of its settings, and the direction in which the glass is mounted.
- That `ess_oled_write` reads its bytes from user memory again after copying them; they are taken to be unchanged.
- The line with process id, state and value that reader and writer print besides the buffer.
- Semaphore start-up races, signal handlers, interrupted waits, and values left in named semaphores.
- The copy of the driver under `2_i2c/OLED_regmap`, the older ring under `rpi_3b_v1_2/1_gpio`, the terminal programs, and the other modules and demonstrations of the repository.
