/**
The two processes of ipc/shared_mem_semaphore as one step machine. The writer reads its
keys character by character; for each arrow key it takes `sem_write`, sets `state`, formats
a message into the shared buffer character by character and posts `sem_read`. The reader
takes `sem_read`, prints the buffer character by character, tests `state` and posts
`sem_write`. After its loop the writer sets STATE_2 and posts `sem_read` without having
taken anything.

Both processes are attached to fresh semaphores (`sem_write` 1, `sem_read` 0); there are
no signals, and no key pushes the value out of the range of an `int`.
*/
module Handshake {
  import opened HandshakeText

  datatype SharedState = State0 | State1 | State2

  datatype Writer =
    | Keys                         // at the test of the key loop
    | Escaped                      // has read 27
    | Bracketed                    // and 91: the next character is the key
    | WaitWrite                    // in sem_wait(sem_write)
    | SetState                     // has the token
    | Print(done: nat)             // in sprintf: `done` characters, NUL included, are out
    | PostRead                     // about to post sem_read
    | FinalState                   // after the loop
    | FinalPost
    | Finished

  datatype Reader =
    | LoopTop
    | WaitRead                     // in sem_wait(sem_read)
    | PrintBuffer(shown: string)   // has a token and has read `shown` so far
    | TestState
    | PostWrite
    | Closed

  datatype State = State(
    pid: int, semWrite: nat, semRead: nat,
    shared: SharedState, buffer: seq<char>,
    writer: Writer, fileVal: int, writerRunning: bool,
    reader: Reader, readerRunning: bool)

  datatype Label =
    | Silent
    | Typed(ch: int)               // getchar gave the writer this
    | Wrote(text: string)          // the writer posted this message
    | Printed(text: string)        // the reader printed this

  // ----- the steps

  /** The writer at one of its three calls of getchar. */
  ghost predicate KeyStep(s: State, l: Label, s': State, ch: int) {
    && l == Typed(ch)
    && match s.writer
       case Keys =>
         && s.writerRunning
         && s' == s.(writer := if ch == 'q' as int then FinalState else if ch == 27 then Escaped else Keys)
       case Escaped => s' == s.(writer := if ch == 91 then Bracketed else Keys)
       case Bracketed =>
         if ch == 65 || ch == 66 then
           var val := if ch == 65 then s.fileVal + 1 else s.fileVal - 1;
           IsInt(val) && s' == s.(fileVal := val, writer := WaitWrite)
         else
           s' == s.(writer := Keys)
       case _ => false
  }

  ghost predicate WriterStep(s: State, l: Label, s': State) {
    var text := Text(s.pid, s.fileVal);
    match s.writer
    case Keys =>
      || (exists ch :: KeyStep(s, l, s', ch))
      || (!s.writerRunning && l == Silent && s' == s.(writer := FinalState))
    case Escaped => exists ch :: KeyStep(s, l, s', ch)
    case Bracketed => exists ch :: KeyStep(s, l, s', ch)
    case WaitWrite =>
      s.semWrite > 0 && l == Silent && s' == s.(semWrite := s.semWrite - 1, writer := SetState)
    case SetState =>
      && l == Silent
      && s' == if s.fileVal == 10
                                    then s.(shared := State2, writerRunning := false, writer := Print(0))
               else s.(shared := State1, writer := Print(0))
    case Print(done) =>
      && l == Silent
      && if done <= |text| then
           && done < |s.buffer|
           && s' == s.(buffer := s.buffer[done := if done < |text| then text[done] else NUL],
                             writer := Print(done + 1))
         else s' == s.(writer := PostRead)
    case PostRead => l == Wrote(text) && s' == s.(semRead := s.semRead + 1, writer := Keys)
    case FinalState => l == Silent && s' == s.(shared := State2, writer := FinalPost)
    case FinalPost => l == Silent && s' == s.(semRead := s.semRead + 1, writer := Finished)
    case Finished => false
  }

  ghost predicate ReaderStep(s: State, l: Label, s': State) {
    match s.reader
    case LoopTop => l == Silent && s' == s.(reader := if s.readerRunning then WaitRead else Closed)
    case WaitRead =>
      s.semRead > 0 && l == Silent && s' == s.(semRead := s.semRead - 1, reader := PrintBuffer(""))
    case PrintBuffer(shown) =>
      && |shown| < |s.buffer|
      && var c := s.buffer[|shown|];
      && if c == NUL then l == Printed(shown) && s' == s.(reader := TestState)
         else l == Silent && s' == s.(reader := PrintBuffer(shown + [c]))
    case TestState =>
      && l == Silent
      && s' == s.(reader := PostWrite, readerRunning := if s.shared == State2 then false else s.readerRunning)
    case PostWrite => l == Silent && s' == s.(semWrite := s.semWrite + 1, reader := LoopTop)
    case Closed => false
  }

  ghost predicate Next(s: State, l: Label, s': State) {
    WriterStep(s, l, s') || ReaderStep(s, l, s')
  }

  ghost predicate Init(s: State) {
    && IsInt(s.pid) && s.semWrite == 1 && s.semRead == 0 && s.shared == State0
    && |s.buffer| == BUFFER_SIZE && s.buffer[0] == NUL
    && s.writer == Keys && s.fileVal == 0 && s.writerRunning
    && s.reader == LoopTop && s.readerRunning
  }

  // ----- the invariant

  predicate WriterHolds(s: State) {
    s.writer.SetState? || s.writer.Print? || s.writer.PostRead?
  }

  predicate ReaderHolds(s: State) {
    s.reader.PrintBuffer? || s.reader.TestState? || s.reader.PostWrite?
  }

  function Count(b: bool): nat {
    if b then 1 else 0
  }

  /** One token goes round; the shutdown adds a second one. */
  predicate Tokens(s: State) {
    s.semWrite + s.semRead + Count(WriterHolds(s)) + Count(ReaderHolds(s)) == 1 + Count(s.writer.Finished?)
  }

  /** The last message posted, or the empty string of a fresh buffer. */
  function Latest(written: seq<string>): string {
    if written == [] then "" else written[|written| - 1]
  }

  /** The buffer holds the latest message, unless the writer is at work on the next. */
  ghost predicate BufferInv(s: State, written: seq<string>) {
    var text := Text(s.pid, s.fileVal);
    && |s.buffer| == BUFFER_SIZE && IsInt(s.pid) && IsInt(s.fileVal)
    && NUL !in Latest(written)
    && match s.writer
       case Print(done) => done <= |text| + 1 && done <= BUFFER_SIZE && s.buffer[..done] == (text + [NUL])[..done]
       case PostRead => Holds(s.buffer, text)
       case _ => Holds(s.buffer, Latest(written))
  }

  /** The writer is past its last message, or at work on it. */
  predicate Quitting(s: State) {
    || s.writer.FinalState? || s.writer.FinalPost? || s.writer.Finished?
    || (!s.writerRunning && (s.writer.Print? || s.writer.PostRead? || s.writer.Keys?))
  }

  predicate ShutdownInv(s: State) {
    && (s.shared == State2 ==> Quitting(s))
    && (!s.writerRunning ==> s.shared == State2 && Quitting(s))
    && (s.writer.FinalPost? || s.writer.Finished? ==> s.shared == State2)
  }

  /** The messages printed are the messages written, perhaps with the latest once more. */
  ghost predicate OrderInv(s: State, written: seq<string>, printed: seq<string>) {
    && |printed| + s.semRead + Count(s.reader.PrintBuffer?) == |written| + Count(s.writer.Finished?)
    && printed <= written + [Latest(written)]
    && (s.reader.PrintBuffer? ==> s.reader.shown <= Latest(written))
  }

  predicate ReaderInv(s: State, written: seq<string>, printed: seq<string>) {
    && (s.reader.WaitRead? || s.reader.PrintBuffer? || s.reader.TestState? ==> s.readerRunning)
    && (s.reader.Closed? ==> !s.readerRunning)
    && (!s.readerRunning ==> s.shared == State2 && !WriterHolds(s) && |printed| >= |written|)
    && (s.writer.Finished? && s.readerRunning ==> s.semRead > 0 || s.reader.PrintBuffer? || s.reader.TestState?)
  }

  ghost predicate Inv(s: State, written: seq<string>, printed: seq<string>) {
    && Tokens(s) && BufferInv(s, written) && ShutdownInv(s)
    && OrderInv(s, written, printed) && ReaderInv(s, written, printed)
  }

  function AddWritten(written: seq<string>, l: Label): seq<string> {
    if l.Wrote? then written + [l.text] else written
  }

  function AddPrinted(printed: seq<string>, l: Label): seq<string> {
    if l.Printed? then printed + [l.text] else printed
  }

  lemma InitInv(s: State)
    requires Init(s)
    ensures Inv(s, [], [])
  {
  }

  lemma PrintCharacter(s: State, l: Label, s': State, written: seq<string>, printed: seq<string>)
    requires Inv(s, written, printed) && s.writer.Print? && WriterStep(s, l, s')
    ensures l == Silent && Inv(s', written, printed)
  {
    var text, done := Text(s.pid, s.fileVal), s.writer.done;
    TextFits(s.pid, s.fileVal);
    if done <= |text| {
      assert s'.buffer[..done + 1] == s.buffer[..done] + [(text + [NUL])[done]];
      assert (text + [NUL])[..done + 1] == (text + [NUL])[..done] + [(text + [NUL])[done]];
    } else {
      assert (text + [NUL])[..done] == text + [NUL];
      assert s.buffer[..|text|] == s.buffer[..done][..|text|];
      assert s.buffer[|text|] == s.buffer[..done][|text|];
    }
  }

  lemma PostMessage(s: State, l: Label, s': State, written: seq<string>, printed: seq<string>)
    requires Inv(s, written, printed) && s.writer.PostRead? && WriterStep(s, l, s')
    ensures Inv(s', AddWritten(written, l), AddPrinted(printed, l))
  {
    assert |printed| == |written|;
    assert printed == written;
  }

  lemma OtherWriterSteps(s: State, l: Label, s': State, written: seq<string>, printed: seq<string>)
    requires Inv(s, written, printed) && !s.writer.Print? && !s.writer.PostRead? && WriterStep(s, l, s')
    ensures !l.Wrote? && !l.Printed? && Inv(s', written, printed)
  {
  }

  /** What the reader's next character is: the next of the latest message, or its end. */
  lemma NextCharacter(buffer: seq<char>, latest: string, shown: string)
    requires Holds(buffer, latest) && shown <= latest
    ensures |shown| < |buffer|
    ensures if buffer[|shown|] == NUL then shown == latest else shown + [buffer[|shown|]] <= latest
  {
    assert |shown| < |latest| ==> buffer[|shown|] == buffer[..|latest|][|shown|];
  }

  lemma OnePrintedMore(written: seq<string>, printed: seq<string>)
    requires printed <= written + [Latest(written)]
    requires |written| <= |printed| + 1 && |printed| <= |written|
    ensures printed + [Latest(written)] <= written + [Latest(written)]
  {
  }

  lemma PrintPass(s: State, l: Label, s': State, written: seq<string>, printed: seq<string>)
    requires Inv(s, written, printed) && s.reader.PrintBuffer? && ReaderStep(s, l, s')
    ensures Inv(s', AddWritten(written, l), AddPrinted(printed, l))
  {
    NextCharacter(s.buffer, Latest(written), s.reader.shown);
    if l.Printed? {
      OnePrintedMore(written, printed);
    }
  }

  lemma OtherReaderSteps(s: State, l: Label, s': State, written: seq<string>, printed: seq<string>)
    requires Inv(s, written, printed) && !s.reader.PrintBuffer? && ReaderStep(s, l, s')
    ensures l == Silent && Inv(s', written, printed)
  {
  }

  lemma NextKeepsInv(s: State, l: Label, s': State, written: seq<string>, printed: seq<string>)
    requires Inv(s, written, printed) && Next(s, l, s')
    ensures Inv(s', AddWritten(written, l), AddPrinted(printed, l))
  {
    if WriterStep(s, l, s') {
      if s.writer.Print? {
        PrintCharacter(s, l, s', written, printed);
      } else if s.writer.PostRead? {
        PostMessage(s, l, s', written, printed);
      } else {
        OtherWriterSteps(s, l, s', written, printed);
      }
    } else if s.reader.PrintBuffer? {
      PrintPass(s, l, s', written, printed);
    } else {
      OtherReaderSteps(s, l, s', written, printed);
    }
  }

  // ----- whole runs

  ghost predicate StepAt(states: seq<State>, labels: seq<Label>, i: nat)
    requires i < |labels| && |states| == |labels| + 1
  {
    Next(states[i], labels[i], states[i + 1])
  }

  ghost predicate Run(states: seq<State>, labels: seq<Label>) {
    && |states| == |labels| + 1
    && Init(states[0])
    && forall i :: 0 <= i < |labels| ==> StepAt(states, labels, i)
  }

  /** The messages posted in the first `n` steps. */
  function Written(labels: seq<Label>, n: nat): seq<string>
    requires n <= |labels|
  {
    if n == 0 then [] else AddWritten(Written(labels, n - 1), labels[n - 1])
  }

  /** What the reader printed in the first `n` steps. */
  function PrintedBy(labels: seq<Label>, n: nat): seq<string>
    requires n <= |labels|
  {
    if n == 0 then [] else AddPrinted(PrintedBy(labels, n - 1), labels[n - 1])
  }

  ghost predicate SoundAfter(states: seq<State>, labels: seq<Label>, n: nat)
    requires n <= |labels| && |states| == |labels| + 1
  {
    Inv(states[n], Written(labels, n), PrintedBy(labels, n))
  }

  lemma RunStart(states: seq<State>, labels: seq<Label>)
    requires Run(states, labels)
    ensures SoundAfter(states, labels, 0)
  {
    InitInv(states[0]);
  }

  lemma RunStep(states: seq<State>, labels: seq<Label>, n: nat)
    requires Run(states, labels) && n < |labels| && SoundAfter(states, labels, n)
    ensures SoundAfter(states, labels, n + 1)
  {
    assert StepAt(states, labels, n);
    NextKeepsInv(states[n], labels[n], states[n + 1], Written(labels, n), PrintedBy(labels, n));
  }

  lemma {:induction false} RunKeepsInv(states: seq<State>, labels: seq<Label>, n: nat)
    requires Run(states, labels) && n <= |labels|
    ensures SoundAfter(states, labels, n)
    decreases n
  {
    if n == 0 {
      RunStart(states, labels);
    } else {
      RunKeepsInv(states, labels, n - 1);
      RunStep(states, labels, n - 1);
    }
  }

  /**
  Lock step: the reader has printed what was written, or is one message behind; only the
  shutdown post can make it print the latest contents of the buffer once more.
  */
  ghost predicate LockStep(written: seq<string>, printed: seq<string>, shutdown: bool) {
    || printed == written
    || (written != [] && printed == written[..|written| - 1])
    || (shutdown && printed == written + [Latest(written)])
  }

  lemma InvIsLockStep(s: State, written: seq<string>, printed: seq<string>)
    requires Inv(s, written, printed)
    ensures LockStep(written, printed, s.writer.Finished?)
    ensures s.reader.Closed? ==> printed == written || printed == written + [Latest(written)]
    ensures s.reader.Closed? ==> Quitting(s) && !WriterHolds(s)
  {
    var all := written + [Latest(written)];
    assert printed == all[..|printed|];
    assert all[..|written|] == written;
    assert written != [] ==> all[..|written| - 1] == written[..|written| - 1];
    assert all[..|written| + 1] == all;
  }

  /** In every run, at every point; and a reader that has exited has printed everything. */
  lemma LockStepDelivery(states: seq<State>, labels: seq<Label>, n: nat)
    requires Run(states, labels) && n <= |labels|
    ensures var written, printed := Written(labels, n), PrintedBy(labels, n);
            || printed == written
            || (written != [] && printed == written[..|written| - 1])
            || (states[n].writer.Finished? && printed == written + [Latest(written)])
    ensures states[n].reader.Closed? ==>
              || PrintedBy(labels, n) == Written(labels, n)
              || PrintedBy(labels, n) == Written(labels, n) + [Latest(Written(labels, n))]
  {
    RunKeepsInv(states, labels, n);
    InvIsLockStep(states[n], Written(labels, n), PrintedBy(labels, n));
  }

  /** Nothing is written behind the back of a reader that has exited. */
  lemma {:induction false} NothingAfterExit(states: seq<State>, labels: seq<Label>, m: nat, n: nat)
    requires Run(states, labels) && m <= n <= |labels| && states[m].reader.Closed?
    ensures states[n].reader.Closed?
    ensures Written(labels, n) == Written(labels, m) && PrintedBy(labels, n) == PrintedBy(labels, m)
    decreases n
  {
    if m < n {
      NothingAfterExit(states, labels, m, n - 1);
      RunKeepsInv(states, labels, n - 1);
      InvIsLockStep(states[n - 1], Written(labels, n - 1), PrintedBy(labels, n - 1));
      assert StepAt(states, labels, n - 1);
      ClosedStepIsSilent(states[n - 1], labels[n - 1], states[n]);
    }
  }

  lemma ClosedStepIsSilent(s: State, l: Label, s': State)
    requires s.reader.Closed? && !WriterHolds(s) && Next(s, l, s')
    ensures s'.reader.Closed? && !l.Wrote? && !l.Printed?
  {
  }

  // ----- the token

  /**
  In every reachable state before the shutdown post exactly one of the two semaphores and
  the two processes has the token, and a printing reader always faces a whole message.
  */
  lemma TokenIsExclusive(states: seq<State>, labels: seq<Label>, n: nat)
    requires Run(states, labels) && n <= |labels|
    ensures var s := states[n];
            && (!s.writer.Finished? ==> s.semWrite + s.semRead + Count(WriterHolds(s)) + Count(ReaderHolds(s)) == 1)
            && (s.reader.PrintBuffer? ==> !WriterHolds(s) && Holds(s.buffer, Latest(Written(labels, n))))
  {
    RunKeepsInv(states, labels, n);
  }

  /** In every run only a writer that holds the token, alone, changes the buffer. */
  lemma OnlyHolderWrites(states: seq<State>, labels: seq<Label>, n: nat)
    requires Run(states, labels) && n < |labels| && states[n + 1].buffer != states[n].buffer
    ensures var s := states[n];
            WriterHolds(s) && !ReaderHolds(s) && s.semWrite == 0 && s.semRead == 0 && !s.writer.Finished?
  {
    RunKeepsInv(states, labels, n);
    assert StepAt(states, labels, n);
    BufferChangesUnderToken(states[n], labels[n], states[n + 1], Written(labels, n), PrintedBy(labels, n));
  }

  lemma BufferChangesUnderToken(s: State, l: Label, s': State, written: seq<string>, printed: seq<string>)
    requires Inv(s, written, printed) && Next(s, l, s') && s'.buffer != s.buffer
    ensures WriterHolds(s) && !ReaderHolds(s) && s.semWrite == 0 && s.semRead == 0 && !s.writer.Finished?
  {
  }

  /** Whatever the reader prints, in any run, is a message the writer posted whole, or the empty fresh buffer. */
  lemma NeverHalfAMessage(states: seq<State>, labels: seq<Label>, n: nat)
    requires Run(states, labels) && n < |labels| && labels[n].Printed?
    ensures labels[n].text == Latest(Written(labels, n))
  {
    RunKeepsInv(states, labels, n);
    assert StepAt(states, labels, n);
    PrintedIsLatest(states[n], labels[n], states[n + 1], Written(labels, n), PrintedBy(labels, n));
  }

  lemma PrintedIsLatest(s: State, l: Label, s': State, written: seq<string>, printed: seq<string>)
    requires Inv(s, written, printed) && Next(s, l, s') && l.Printed?
    ensures l.text == Latest(written)
  {
    NextCharacter(s.buffer, Latest(written), s.reader.shown);
  }

  // ----- the keys behind the messages

  function AddTyped(typed: seq<int>, l: Label): seq<int> {
    if l.Typed? then typed + [l.ch] else typed
  }

  /** What getchar gave the writer in the first `n` steps. */
  function TypedBy(labels: seq<Label>, n: nat): seq<int>
    requires n <= |labels|
  {
    if n == 0 then [] else AddTyped(TypedBy(labels, n - 1), labels[n - 1])
  }

  /** The arrow keys in what was typed: 27 91 65 is up, 1, and 27 91 66 is down, -1. */
  function Arrows(typed: seq<int>): seq<int> {
    if typed == [] then []
    else if typed[0] != 27 then Arrows(typed[1..])
    else if |typed| == 1 then []
    else if typed[1] != 91 then Arrows(typed[2..])
    else if |typed| == 2 then []
    else (if typed[2] == 65 then [1] else if typed[2] == 66 then [-1] else []) + Arrows(typed[3..])
  }

  /** Whether what was typed ends inside an escape sequence, and where. */
  function Inside(typed: seq<int>): Writer {
    if typed == [] then Keys
    else if typed[0] != 27 then Inside(typed[1..])
    else if |typed| == 1 then Escaped
    else if typed[1] != 91 then Inside(typed[2..])
    else if |typed| == 2 then Bracketed
    else Inside(typed[3..])
  }

  lemma {:induction false} OneMoreCharacter(typed: seq<int>, ch: int)
    ensures Inside(typed + [ch]) == match Inside(typed)
                                    case Escaped => if ch == 91 then Bracketed else Keys
                                    case Bracketed => Keys
                                    case _ => if ch == 27 then Escaped else Keys
    ensures Arrows(typed + [ch])
            == Arrows(typed)
               + if !Inside(typed).Bracketed? then [] else if ch == 65 then [1] else if ch == 66 then [-1] else []
    ensures Inside(typed).Keys? || Inside(typed).Escaped? || Inside(typed).Bracketed?
    decreases |typed|
  {
    var all := typed + [ch];
    if typed == [] {
      assert all[1..] == [];
    } else {
      var k := if typed[0] != 27 then 1 else if |typed| == 1 || typed[1] != 91 then 2 else 3;
      if k <= |typed| {
        assert all[k..] == typed[k..] + [ch];
        OneMoreCharacter(typed[k..], ch);
      } else {
        assert all[1] == if |typed| == 1 then ch else typed[1];
        assert |all| == k ==> all[k..] == [];
      }
    }
  }

  function Sum(steps: seq<int>): int {
    if steps == [] then 0 else Sum(steps[..|steps| - 1]) + steps[|steps| - 1]
  }

  /** An arrow key was read and its message is not posted yet. */
  predicate Sending(s: State) {
    s.writer.WaitWrite? || WriterHolds(s)
  }

  /** Each message has the sum of the steps up to its own. */
  ghost predicate Told(pid: int, steps: seq<int>, written: seq<string>) {
    |written| <= |steps| && forall k :: 0 <= k < |written| ==> written[k] == Text(pid, Sum(steps[..k + 1]))
  }

  lemma ToldStays(pid: int, steps: seq<int>, written: seq<string>, more: seq<int>)
    requires Told(pid, steps, written)
    ensures Told(pid, steps + more, written)
  {
    forall k | 0 <= k < |written| ensures written[k] == Text(pid, Sum((steps + more)[..k + 1])) {
      assert (steps + more)[..k + 1] == steps[..k + 1];
    }
  }

  lemma ToldNext(pid: int, steps: seq<int>, written: seq<string>, text: string)
    requires Told(pid, steps, written) && |written| + 1 == |steps| && text == Text(pid, Sum(steps))
    ensures Told(pid, steps, written + [text])
  {
    var n, all := |written|, written + [text];
    assert steps[..n + 1] == steps;
    forall k | 0 <= k < n + 1 ensures all[k] == Text(pid, Sum(steps[..k + 1])) {
      if k < n {
        assert all[k] == written[k];
      } else {
        assert all[k] == text;
      }
    }
  }

  /** The value is the ups less the downs so far, and every arrow key has its own message. */
  ghost predicate Tells(s: State, typed: seq<int>, written: seq<string>) {
    var arrows := Arrows(typed);
    && s.fileVal == Sum(arrows)
    && |written| + Count(Sending(s)) == |arrows| && Told(s.pid, arrows, written)
    && (s.writer.Keys? || s.writer.Escaped? || s.writer.Bracketed? || Sending(s) ==>
          Inside(typed) == if s.writer.Escaped? || s.writer.Bracketed? then s.writer else Keys)
  }

  /** An up, a down, another character, a broken escape sequence and an unknown key, before `rest`. */
  lemma ArrowsInFront(rest: seq<int>, ch: int)
    ensures Arrows([27, 91, 65] + rest) == [1] + Arrows(rest)
    ensures Arrows([27, 91, 66] + rest) == [-1] + Arrows(rest)
    ensures ch != 27 ==> Arrows([ch] + rest) == Arrows(rest)
    ensures ch != 91 ==> Arrows([27, ch] + rest) == Arrows(rest)
    ensures ch != 65 && ch != 66 ==> Arrows([27, 91, ch] + rest) == Arrows(rest)
  {
    assert ([27, 91, 65] + rest)[3..] == rest && ([27, 91, 66] + rest)[3..] == rest;
    assert ([ch] + rest)[1..] == rest && ([27, ch] + rest)[2..] == rest && ([27, 91, ch] + rest)[3..] == rest;
  }

  lemma SumNext(steps: seq<int>, step: int)
    ensures Sum([]) == 0
    ensures Sum(steps + [step]) == Sum(steps) + step
  {
    assert (steps + [step])[..|steps|] == steps;
  }

  lemma KeyTells(s: State, l: Label, s': State, ch: int, typed: seq<int>, written: seq<string>)
    requires Tells(s, typed, written) && KeyStep(s, l, s', ch)
    ensures Tells(s', typed + [ch], written)
  {
    OneMoreCharacter(typed, ch);
    var arrows := Arrows(typed);
    SumNext(arrows, if ch == 65 then 1 else -1);
    assert arrows + [] == arrows;
    ToldStays(s.pid, arrows, written, [if ch == 65 then 1 else -1]);
  }

  lemma PostTells(s: State, l: Label, s': State, typed: seq<int>, written: seq<string>)
    requires Tells(s, typed, written) && s.writer.PostRead? && WriterStep(s, l, s')
    ensures Tells(s', typed, AddWritten(written, l))
  {
    ToldNext(s.pid, Arrows(typed), written, l.text);
  }

  /** Nothing was read and nothing posted. */
  predicate SameKeys(s: State, s': State) {
    && s'.fileVal == s.fileVal && s'.pid == s.pid && (Sending(s') <==> Sending(s))
    && (s'.writer == s.writer || Sending(s) || s'.writer.FinalState? || s'.writer.FinalPost? || s'.writer.Finished?)
  }

  lemma OtherStepIsSame(s: State, l: Label, s': State)
    requires Next(s, l, s') && !l.Typed? && !l.Wrote?
    ensures SameKeys(s, s')
  {
    if WriterStep(s, l, s') {
      WriterStepIsSame(s, l, s');
    }
  }

  lemma WriterStepIsSame(s: State, l: Label, s': State)
    requires WriterStep(s, l, s') && !l.Typed? && !l.Wrote?
    ensures SameKeys(s, s')
  {
  }

  lemma TypedIsKey(s: State, l: Label, s': State)
    requires Next(s, l, s')
    ensures l.Typed? ==> KeyStep(s, l, s', l.ch)
    ensures l.Wrote? ==> s.writer.PostRead? && WriterStep(s, l, s')
    ensures s'.pid == s.pid
  {
  }

  lemma StepTells(s: State, l: Label, s': State, typed: seq<int>, written: seq<string>)
    requires Tells(s, typed, written) && Next(s, l, s')
    ensures Tells(s', AddTyped(typed, l), AddWritten(written, l)) && s'.pid == s.pid
  {
    TypedIsKey(s, l, s');
    if l.Typed? {
      KeyTells(s, l, s', l.ch, typed, written);
    } else if l.Wrote? {
      PostTells(s, l, s', typed, written);
    } else {
      OtherStepIsSame(s, l, s');
    }
  }

  lemma {:induction false} RunTells(states: seq<State>, labels: seq<Label>, n: nat)
    requires Run(states, labels) && n <= |labels|
    ensures Tells(states[n], TypedBy(labels, n), Written(labels, n)) && states[n].pid == states[0].pid
    decreases n
  {
    if n > 0 {
      RunTells(states, labels, n - 1);
      assert StepAt(states, labels, n - 1);
      StepTells(states[n - 1], labels[n - 1], states[n], TypedBy(labels, n - 1), Written(labels, n - 1));
    }
  }

  /** In every run the value starts at 0 and moves with the third character of an arrow key, and only then. */
  lemma KeysMoveValue(states: seq<State>, labels: seq<Label>, n: nat)
    requires Run(states, labels) && n < |labels|
    ensures states[0].fileVal == 0 && states[0].writer == Keys
    ensures var s, s' := states[n], states[n + 1];
            && s'.fileVal == s.fileVal + (if s.writer.Bracketed? && labels[n] == Typed(65) then 1
                                          else if s.writer.Bracketed? && labels[n] == Typed(66) then -1 else 0)
            && (s'.writer.Escaped? && !s.writer.Escaped? ==> s.writer.Keys? && labels[n] == Typed(27))
            && (s'.writer.Bracketed? && !s.writer.Bracketed? ==> s.writer.Escaped? && labels[n] == Typed(91))
            && (s.writer.Keys? ==> (s'.writer.FinalState? <==>
                                  labels[n] == Typed(113) || (s'.writer != Keys && !s.writerRunning)))
  {
    assert StepAt(states, labels, n);
    KeyMoves(states[n], labels[n], states[n + 1]);
  }

  lemma KeyMoves(s: State, l: Label, s': State)
    requires Next(s, l, s')
    ensures s'.fileVal == s.fileVal + (if s.writer.Bracketed? && l == Typed(65) then 1
                                       else if s.writer.Bracketed? && l == Typed(66) then -1 else 0)
    ensures s'.writer.Escaped? && !s.writer.Escaped? ==> s.writer.Keys? && l == Typed(27)
    ensures s'.writer.Bracketed? && !s.writer.Bracketed? ==> s.writer.Escaped? && l == Typed(91)
    ensures s.writer.Keys? ==> (s'.writer.FinalState? <==> l == Typed(113) || (s'.writer != Keys && !s.writerRunning))
  {
    TypedIsKey(s, l, s');
    if !l.Typed? && !l.Wrote? {
      OtherStepIsSame(s, l, s');
    }
  }

  /**
  What the messages say, in every run: each arrow key has one message, in order, with the
  ups less the downs up to that key; what the reader prints are those texts.
  */
  lemma MessagesTellKeys(states: seq<State>, labels: seq<Label>, n: nat)
    requires Run(states, labels) && n <= |labels|
    ensures var arrows, written, printed := Arrows(TypedBy(labels, n)), Written(labels, n), PrintedBy(labels, n);
            && states[n].fileVal == Sum(arrows)
            && (|written| == |arrows| || (|written| == |arrows| - 1 && Sending(states[n])))
            && (forall k :: 0 <= k < |written| ==> written[k] == Text(states[0].pid, Sum(arrows[..k + 1])))
            && (forall k :: 0 <= k < |printed| && k < |written| ==>
                  printed[k] == Text(states[0].pid, Sum(arrows[..k + 1])))
  {
    RunTells(states, labels, n);
    LockStepDelivery(states, labels, n);
  }

  // ----- the value that ends it

  /** STATE_2 before the end of the writer's loop goes with the value 10. */
  predicate TenInv(s: State) {
    && (s.writer.Print? || s.writer.PostRead? ==>
          (s.fileVal == 10 <==> !s.writerRunning) && s.shared == if s.fileVal == 10 then State2 else State1)
    && (!s.writerRunning ==>
          && s.fileVal == 10 && s.shared == State2
          && !s.writer.Escaped? && !s.writer.Bracketed? && !s.writer.WaitWrite? && !s.writer.SetState?)
    && (s.writerRunning && !s.writer.FinalPost? && !s.writer.Finished? ==> s.shared != State2)
  }

  lemma StepKeepsTen(s: State, l: Label, s': State)
    requires TenInv(s) && Next(s, l, s')
    ensures TenInv(s')
  {
    TypedIsKey(s, l, s');
    if l.Typed? {
      KeyKeepsTen(s, l, s', l.ch);
    } else if WriterStep(s, l, s') {
      WriterKeepsTen(s, l, s');
    }
  }

  lemma KeyKeepsTen(s: State, l: Label, s': State, ch: int)
    requires TenInv(s) && KeyStep(s, l, s', ch)
    ensures TenInv(s')
  {
  }

  lemma WriterKeepsTen(s: State, l: Label, s': State)
    requires TenInv(s) && WriterStep(s, l, s') && !l.Typed?
    ensures TenInv(s')
  {
  }

  lemma {:induction false} RunKeepsTen(states: seq<State>, labels: seq<Label>, n: nat)
    requires Run(states, labels) && n <= |labels|
    ensures TenInv(states[n])
    decreases n
  {
    if n > 0 {
      RunKeepsTen(states, labels, n - 1);
      assert StepAt(states, labels, n - 1);
      StepKeepsTen(states[n - 1], labels[n - 1], states[n]);
    }
  }

  lemma StoppedStep(s: State, l: Label, s': State)
    requires !s.writerRunning && !WriterHolds(s) && TenInv(s) && Next(s, l, s')
    ensures !s'.writerRunning && !WriterHolds(s') && !l.Wrote?
  {
  }

  lemma {:induction false} StoppedForGood(states: seq<State>, labels: seq<Label>, m: nat, n: nat)
    requires Run(states, labels) && m <= n <= |labels|
    requires !states[m].writerRunning && !WriterHolds(states[m])
    ensures !states[n].writerRunning && !WriterHolds(states[n]) && states[n].shared == State2
    ensures Written(labels, n) == Written(labels, m)
    decreases n
  {
    RunKeepsTen(states, labels, n);
    if m < n {
      StoppedForGood(states, labels, m, n - 1);
      RunKeepsTen(states, labels, n - 1);
      assert StepAt(states, labels, n - 1);
      StoppedStep(states[n - 1], labels[n - 1], states[n]);
    }
  }

  /**
  The message for 10, and no other, sets STATE_2 and is the last: after it nothing more is
  posted but the shutdown. After any other message STATE_1 is there and the writer runs on.
  */
  lemma TenIsTheLast(states: seq<State>, labels: seq<Label>, m: nat, n: nat)
    requires Run(states, labels) && m < n <= |labels| && labels[m].Wrote?
    ensures labels[m].text == Text(states[0].pid, states[m].fileVal)
    ensures states[m].fileVal == 10 ==> states[n].shared == State2 && Written(labels, n) == Written(labels, m + 1)
    ensures states[m].fileVal != 10 ==> states[m + 1].shared == State1 && states[m + 1].writerRunning
  {
    RunTells(states, labels, m);
    RunKeepsTen(states, labels, m);
    assert StepAt(states, labels, m);
    if states[m].fileVal == 10 {
      StoppedForGood(states, labels, m + 1, n);
    }
  }

  // ----- progress

  ghost predicate ReaderCanStep(s: State) {
    exists l, s' :: ReaderStep(s, l, s')
  }

  ghost predicate WriterCanStep(s: State) {
    exists l, s' :: WriterStep(s, l, s')
  }

  /** The reader is stuck only with nothing posted, and the writer only with the token elsewhere. */
  lemma WhoCanStep(s: State, written: seq<string>, printed: seq<string>)
    requires Inv(s, written, printed)
    ensures ReaderCanStep(s) <==> !s.reader.Closed? && (s.reader.WaitRead? ==> s.semRead > 0)
    ensures WriterCanStep(s) <==> !s.writer.Finished? && (s.writer.WaitWrite? ==> s.semWrite > 0)
  {
    ReaderMoves(s, written, printed);
    WriterMoves(s, written, printed);
  }

  lemma ReaderMoves(s: State, written: seq<string>, printed: seq<string>)
    requires Inv(s, written, printed)
    ensures ReaderCanStep(s) <==> !s.reader.Closed? && (s.reader.WaitRead? ==> s.semRead > 0)
  {
    match s.reader
    case LoopTop => assert ReaderStep(s, Silent, s.(reader := if s.readerRunning then WaitRead else Closed));
    case WaitRead =>
      if s.semRead > 0 {
        assert ReaderStep(s, Silent, s.(semRead := s.semRead - 1, reader := PrintBuffer("")));
      }
    case PrintBuffer(shown) =>
      NextCharacter(s.buffer, Latest(written), shown);
      var c := s.buffer[|shown|];
      if c == NUL {
        assert ReaderStep(s, Printed(shown), s.(reader := TestState));
      } else {
        assert ReaderStep(s, Silent, s.(reader := PrintBuffer(shown + [c])));
      }
    case TestState =>
      assert ReaderStep(s, Silent, s.(reader := PostWrite,
                                       readerRunning := if s.shared == State2 then false else s.readerRunning));
    case PostWrite => assert ReaderStep(s, Silent, s.(semWrite := s.semWrite + 1, reader := LoopTop));
    case Closed =>
  }

  lemma WriterMoves(s: State, written: seq<string>, printed: seq<string>)
    requires Inv(s, written, printed)
    ensures WriterCanStep(s) <==> !s.writer.Finished? && (s.writer.WaitWrite? ==> s.semWrite > 0)
  {
    var text := Text(s.pid, s.fileVal);
    match s.writer
    case Keys =>
      if s.writerRunning {
        assert KeyStep(s, Typed(0), s, 0);
        assert WriterStep(s, Typed(0), s);
      } else {
        assert WriterStep(s, Silent, s.(writer := FinalState));
      }
    case Escaped =>
      assert KeyStep(s, Typed(0), s.(writer := Keys), 0);
      assert WriterStep(s, Typed(0), s.(writer := Keys));
    case Bracketed =>
      assert KeyStep(s, Typed(0), s.(writer := Keys), 0);
      assert WriterStep(s, Typed(0), s.(writer := Keys));
    case WaitWrite =>
      if s.semWrite > 0 {
        assert WriterStep(s, Silent, s.(semWrite := s.semWrite - 1, writer := SetState));
      }
    case SetState =>
      assert WriterStep(s, Silent, if s.fileVal == 10
                                    then s.(shared := State2, writerRunning := false, writer := Print(0))
                                   else s.(shared := State1, writer := Print(0)));
    case Print(done) =>
      TextFits(s.pid, s.fileVal);
      assert WriterStep(s, Silent, if done <= |text| then
                          s.(buffer := s.buffer[done := if done < |text| then text[done] else NUL],
                             writer := Print(done + 1))
                        else s.(writer := PostRead));
    case PostRead => assert WriterStep(s, Wrote(text), s.(semRead := s.semRead + 1, writer := Keys));
    case FinalState => assert WriterStep(s, Silent, s.(shared := State2, writer := FinalPost));
    case FinalPost => assert WriterStep(s, Silent, s.(semRead := s.semRead + 1, writer := Finished));
    case Finished =>
  }

  /**
  In every reachable state a writer kept waiting has a live reader with the token on its
  way, and until both have exited one of the two can move.
  */
  lemma NoDeadlock(states: seq<State>, labels: seq<Label>, n: nat)
    requires Run(states, labels) && n <= |labels|
    ensures var s := states[n];
            && (s.writer.WaitWrite? && s.semWrite == 0 ==> ReaderCanStep(s) && (ReaderHolds(s) || s.semRead == 1))
            && (ReaderCanStep(s) || WriterCanStep(s) || (s.reader.Closed? && s.writer.Finished?))
  {
    RunKeepsInv(states, labels, n);
    WhoCanStep(states[n], Written(labels, n), PrintedBy(labels, n));
  }

  /** How far a reader is from its exit once STATE_2 is there for good. */
  function StepsLeft(s: State): nat {
    var pass := BUFFER_SIZE + 4;
    match s.reader
    case Closed => 0
    case LoopTop => if s.readerRunning then pass + 2 else 1
    case PostWrite => if s.readerRunning then pass + 3 else 2
    case TestState => 3
    case PrintBuffer(shown) => if |shown| < BUFFER_SIZE then pass - |shown| else 4
    case WaitRead => pass + 1
  }

  lemma FinishedReaderAdvances(s: State, written: seq<string>, printed: seq<string>)
    requires Inv(s, written, printed) && s.writer.Finished?
    ensures s.shared == State2 && !WriterCanStep(s)
    ensures s.reader.WaitRead? ==> s.semRead > 0
    ensures ReaderCanStep(s) <==> !s.reader.Closed?
  {
    WhoCanStep(s, written, printed);
  }

  lemma FinishedStep(s: State, l: Label, s': State, written: seq<string>, printed: seq<string>)
    requires Inv(s, written, printed) && s.writer.Finished? && Next(s, l, s')
    ensures StepsLeft(s') < StepsLeft(s) && s'.writer.Finished?
  {
  }

  lemma {:induction false} FinishedCountsDown(states: seq<State>, labels: seq<Label>, m: nat, n: nat)
    requires Run(states, labels) && m <= n <= |labels| && states[m].writer.Finished?
    ensures states[n].writer.Finished? && StepsLeft(states[n]) + (n - m) <= StepsLeft(states[m])
    decreases n
  {
    if m < n {
      FinishedCountsDown(states, labels, m, n - 1);
      RunKeepsInv(states, labels, n - 1);
      assert StepAt(states, labels, n - 1);
      FinishedStep(states[n - 1], labels[n - 1], states[n], Written(labels, n - 1), PrintedBy(labels, n - 1));
    }
  }

  /**
  Shutdown strands nobody. At every point after the final post STATE_2 is there, only the
  reader moves, it can always move until it has exited, and the run so far has brought it
  nearer by one step each: it finishes its pass and makes at most one more.
  */
  lemma ShutdownReachesReader(states: seq<State>, labels: seq<Label>, m: nat, n: nat)
    requires Run(states, labels) && m <= n <= |labels| && states[m].writer.Finished?
    ensures var s := states[n];
            && s.writer.Finished? && s.shared == State2 && !WriterCanStep(s)
            && (s.reader.WaitRead? ==> s.semRead > 0)
            && (ReaderCanStep(s) <==> !s.reader.Closed?)
            && StepsLeft(s) + (n - m) <= StepsLeft(states[m])
  {
    FinishedCountsDown(states, labels, m, n);
    RunKeepsInv(states, labels, n);
    FinishedReaderAdvances(states[n], Written(labels, n), PrintedBy(labels, n));
  }
}
