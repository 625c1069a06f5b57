/** Live command output: the goroutine that scans a process and feeds a 64-slot channel, the
    loop that turns the lines into card updates, and the context that may be cancelled at any
    moment. One step is one channel operation or one observable action of either side. */
module LiveStream {

  import opened Options

  type Line = string

  /** A nil error is None. */
  type ExitError = Option<string>

  const LINES_CAP: nat := 64
  const ERRC_CAP: nat := 1

  datatype Producer =
    | Idle                    // the goroutine has not been started
    | Opening                 // os.Pipe
    | Starting                // cmd.Start
    | Scanning                // sc.Scan
    | Sending(line: Line)     // select { lines <- line | ctx.Done }
    | Waiting                 // cmd.Wait
    | Reporting(err: ExitError) // errc <- err
    | ClosingErr(reported: ExitError)
    | ClosingLines(reported: ExitError)
    | Finished(reported: ExitError)

  datatype Consumer =
    | Begin                   // card not yet sent
    | Looping                 // select { line | tick }
    | ReadingErr              // <-errc
    | Concluding(result: ExitError) // final update
    | Returning               // deferred cancel
    | Done

  datatype Update = Update(text: string, done: bool, success: bool)

  datatype State = State(
    producer: Producer,
    consumer: Consumer,
    lines: seq<Line>, linesClosed: bool,
    errc: seq<ExitError>, errcClosed: bool,
    cancelled: bool,
    buf: seq<Line>,           // lines written to the card text so far
    updates: seq<Update>,     // card updates, in order
    budget: nat,              // how many more lines the process may print
    scanned: seq<Line>,       // every line the scanner returned
    sent: seq<Line>,          // every line put on the channel
    timedOut: bool            // the context was cancelled by its deadline
  )

  datatype Step =
    | CardFails | Refused(message: string) | BeginStream
    | PipeFails(e: string) | PipeOpens | StartFails(e: string) | Started
    | ScanLine(line: Line) | ScanEnds | SendLine | DropLine
    | ProcessExits(err: ExitError) | SendErr | CloseErr | CloseLines
    | ReceiveLine | ReceiveClosed | Tick | ReadErr | FinalUpdate | Return
    | Timeout

  function Init(budget: nat): State {
    State(Idle, Begin, [], false, [], false, false, [], [], budget, [], [], false)
  }

  /** `buf.String()`: every line followed by a newline. */
  function Render(lines: seq<Line>): string {
    if lines == [] then [] else Render(lines[..|lines| - 1]) + lines[|lines| - 1] + "\n"
  }

  // ---------------------------------------------------------------- the protocol

  predicate Enabled(s: State, step: Step) {
    match step
    case CardFails => s.consumer.Begin?
    case Refused(_) => s.consumer.Begin?
    case BeginStream => s.consumer.Begin? && s.producer.Idle?
    case PipeFails(_) => s.producer.Opening?
    case PipeOpens => s.producer.Opening?
    case StartFails(_) => s.producer.Starting?
    case Started => s.producer.Starting?
    case ScanLine(_) => s.producer.Scanning? && s.budget > 0
    case ScanEnds => s.producer.Scanning?
    case SendLine => s.producer.Sending? && |s.lines| < LINES_CAP
    case DropLine => s.producer.Sending? && s.cancelled
    case ProcessExits(_) => s.producer.Waiting?
    case SendErr => s.producer.Reporting? && |s.errc| < ERRC_CAP
    case CloseErr => s.producer.ClosingErr?
    case CloseLines => s.producer.ClosingLines?
    case ReceiveLine => s.consumer.Looping? && s.lines != []
    case ReceiveClosed => s.consumer.Looping? && s.lines == [] && s.linesClosed
    case Tick => s.consumer.Looping?
    case ReadErr => s.consumer.ReadingErr? && (s.errc != [] || s.errcClosed)
    case FinalUpdate => s.consumer.Concluding?
    case Return => s.consumer.Returning?
    case Timeout => !s.producer.Idle? && !s.cancelled
  }

  function Apply(s: State, step: Step): State
    requires Enabled(s, step)
  {
    match step
    case CardFails => s.(consumer := Done)
    case Refused(message) => s.(consumer := Done, updates := s.updates + [Update(message, true, false)])
    case BeginStream => s.(consumer := Looping, producer := Opening)
    case PipeFails(e) => s.(producer := Reporting(Some(e)))
    case PipeOpens => s.(producer := Starting)
    case StartFails(e) => s.(producer := Reporting(Some(e)))
    case Started => s.(producer := Scanning)
    case ScanLine(l) => s.(producer := Sending(l), scanned := s.scanned + [l], budget := s.budget - 1)
    case ScanEnds => s.(producer := Waiting)
    case SendLine =>
      s.(producer := Scanning, lines := s.lines + [s.producer.line], sent := s.sent + [s.producer.line])
    case DropLine => s.(producer := Scanning)
    case ProcessExits(err) => s.(producer := Reporting(err))
    case SendErr => s.(producer := ClosingErr(s.producer.err), errc := s.errc + [s.producer.err])
    case CloseErr => s.(producer := ClosingLines(s.producer.reported), errcClosed := true)
    case CloseLines => s.(producer := Finished(s.producer.reported), linesClosed := true)
    case ReceiveLine => s.(lines := s.lines[1..], buf := s.buf + [s.lines[0]])
    case ReceiveClosed => s.(consumer := ReadingErr)
    case Tick =>
      if s.buf == [] then s else s.(updates := s.updates + [Update(Render(s.buf), false, false)])
    case ReadErr =>
      if s.errc == [] then s.(consumer := Concluding(None))
      else s.(consumer := Concluding(s.errc[0]), errc := s.errc[1..])
    case FinalUpdate =>
      s.(consumer := Returning,
         updates := s.updates + [Update(Render(s.buf), true, s.consumer.result.None?)])
    case Return => s.(consumer := Done, cancelled := true)
    case Timeout => s.(cancelled := true, timedOut := true)
  }

  ghost predicate ValidRun(s: State, run: seq<Step>)
    decreases |run|
  {
    run == [] || (Enabled(s, run[0]) && ValidRun(Apply(s, run[0]), run[1..]))
  }

  ghost function After(s: State, run: seq<Step>): State
    requires ValidRun(s, run)
    decreases |run|
  {
    if run == [] then s else After(Apply(s, run[0]), run[1..])
  }

  // ---------------------------------------------------------------- what every step keeps

  /** `a` is `b` with some elements left out, order kept. */
  ghost predicate Subsequence<T>(a: seq<T>, b: seq<T>)
    decreases |b|
  {
    if a == [] then true
    else if b == [] then false
    else if a[|a| - 1] == b[|b| - 1] && Subsequence(a[..|a| - 1], b[..|b| - 1]) then true
    else Subsequence(a, b[..|b| - 1])
  }

  lemma SubsequenceBoth<T>(a: seq<T>, b: seq<T>, x: T)
    requires Subsequence(a, b)
    ensures Subsequence(a + [x], b + [x])
  {
    assert (a + [x])[..|a|] == a && (b + [x])[..|b|] == b;
  }

  lemma SubsequenceSkip<T>(a: seq<T>, b: seq<T>, x: T)
    requires Subsequence(a, b)
    ensures Subsequence(a, b + [x])
  {
    assert (b + [x])[..|b|] == b;
  }

  lemma {:induction false} SubsequencePrefix<T>(a: seq<T>, b: seq<T>, k: nat)
    requires k <= |a| && Subsequence(a, b)
    ensures Subsequence(a[..k], b)
    decreases |b|
  {
    if k < |a| && b != [] {
      if a[|a| - 1] == b[|b| - 1] && Subsequence(a[..|a| - 1], b[..|b| - 1]) {
        SubsequencePrefix(a[..|a| - 1], b[..|b| - 1], k);
        assert a[..|a| - 1][..k] == a[..k];
      } else {
        SubsequencePrefix(a, b[..|b| - 1], k);
      }
      SubsequenceSkip(a[..k], b[..|b| - 1], b[|b| - 1]);
      assert b == b[..|b| - 1] + [b[|b| - 1]];
    } else {
      assert a[..|a|] == a;
    }
  }

  /** Lines the producer is finished with: all scanned ones but the one in its hands. */
  ghost function Settled(s: State): seq<Line> {
    if s.producer.Sending? && s.scanned != [] then s.scanned[..|s.scanned| - 1] else s.scanned
  }

  /** The consumer has seen the lines channel closed. */
  ghost predicate PastLines(s: State) {
    s.consumer.ReadingErr? || s.consumer.Concluding? || s.consumer.Returning? || (s.consumer.Done? && s.cancelled)
  }

  /** The channels and the lines. */
  ghost predicate LinesInv(s: State) {
    && |s.lines| <= LINES_CAP
    && (s.producer.Sending? ==> s.scanned != [] && s.producer.line == s.scanned[|s.scanned| - 1])
    && s.sent == s.buf + s.lines
    && Subsequence(s.sent, Settled(s))
    && (!s.timedOut ==> s.sent == Settled(s))
    && (s.timedOut ==> s.cancelled)
    && (s.cancelled ==> !s.producer.Idle?)
    && (s.cancelled && !s.timedOut ==> s.consumer.Done? && s.producer.Finished?)
    && (s.linesClosed <==> s.producer.Finished?)
    && (PastLines(s) ==> s.linesClosed && s.lines == [])
  }

  /** The error channel: its one value is there exactly from SendErr until the consumer takes it. */
  ghost predicate ErrInv(s: State) {
    && (s.errcClosed <==> s.producer.ClosingLines? || s.producer.Finished?)
    && (s.producer.Idle? <==> s.consumer.Begin? || (s.consumer.Done? && !s.cancelled))
    && (s.producer.ClosingErr? || s.producer.ClosingLines? || s.producer.Finished? ==>
          (s.consumer.Looping? || s.consumer.ReadingErr? ==> s.errc == [s.producer.reported])
          && (s.consumer.Concluding? ==> s.consumer.result == s.producer.reported))
    && (!(s.producer.ClosingErr? || s.producer.ClosingLines? || s.producer.Finished?) ==> s.errc == [])
  }

  /** Before the last update every update shows a prefix of the text, unfinished. */
  ghost predicate Unfinished(us: seq<Update>, buf: seq<Line>) {
    forall u :: u in us ==> !u.done && !u.success && exists k :: 0 < k <= |buf| && u.text == Render(buf[..k])
  }

  /** The last update, and no other, is final; it shows the whole text and the exit status. */
  ghost predicate FinalIsLast(s: State) {
    && s.updates != [] && s.producer.Finished?
    && s.updates[|s.updates| - 1] == Update(Render(s.buf), true, s.producer.reported.None?)
    && Unfinished(s.updates[..|s.updates| - 1], s.buf)
  }

  ghost predicate UpdatesInv(s: State) {
    match s.consumer
    case Begin => s.updates == [] && s.buf == []
    case Returning => FinalIsLast(s)
    case Done =>
      if s.cancelled then FinalIsLast(s)
      else s.updates == [] || (|s.updates| == 1 && s.updates[0].done && !s.updates[0].success)
    case _ => Unfinished(s.updates, s.buf)
  }

  ghost predicate Inv(s: State) {
    LinesInv(s) && ErrInv(s) && UpdatesInv(s)
  }

  lemma InvInit(budget: nat)
    ensures Inv(Init(budget))
  {
  }

  lemma LinesStep(s: State, step: Step)
    requires LinesInv(s) && ErrInv(s) && UpdatesInv(s) && Enabled(s, step)
    ensures LinesInv(Apply(s, step))
  {
    match step {
      case ScanLine(l) => ScanKeepsLines(s, l);
      case SendLine => SendKeepsLines(s);
      case DropLine => DropKeepsLines(s);
      case ReceiveLine => ReceiveKeepsLines(s);
      case Timeout => TimeoutKeepsLines(s);
      case CloseLines => CloseKeepsLines(s);
      case _ =>
        if Producing(step) { ProducerKeepsLines(s, step); } else { ConsumerKeepsLines(s, step); }
    }
  }

  /** The producer's steps that touch neither lines nor their channel. */
  predicate Producing(step: Step) {
    || step.PipeFails? || step.PipeOpens? || step.StartFails? || step.Started? || step.ScanEnds?
    || step.ProcessExits? || step.SendErr? || step.CloseErr?
  }

  lemma ProducerKeepsLines(s: State, step: Step)
    requires LinesInv(s) && Enabled(s, step) && Producing(step)
    ensures LinesInv(Apply(s, step))
  {
    assert !s.producer.Sending? && !Apply(s, step).producer.Sending?;
  }

  lemma ConsumerKeepsLines(s: State, step: Step)
    requires LinesInv(s) && ErrInv(s) && UpdatesInv(s) && Enabled(s, step)
    requires step.CardFails? || step.Refused? || step.BeginStream? || step.ReceiveClosed? || step.Tick?
             || step.ReadErr? || step.FinalUpdate? || step.Return?
    ensures LinesInv(Apply(s, step))
  {
    assert Apply(s, step).lines == s.lines && Apply(s, step).sent == s.sent && Apply(s, step).scanned == s.scanned;
  }

  lemma DropKeepsLines(s: State)
    requires LinesInv(s) && Enabled(s, DropLine)
    ensures LinesInv(Apply(s, DropLine))
  {
    HandBack(s);
    SubsequenceSkip(s.sent, Settled(s), s.producer.line);
  }

  lemma TimeoutKeepsLines(s: State)
    requires LinesInv(s) && ErrInv(s) && Enabled(s, Timeout)
    ensures LinesInv(Apply(s, Timeout))
  {
  }

  lemma CloseKeepsLines(s: State)
    requires LinesInv(s) && Enabled(s, CloseLines)
    ensures LinesInv(Apply(s, CloseLines))
  {
  }

  lemma ScanKeepsLines(s: State, l: Line)
    requires LinesInv(s) && Enabled(s, ScanLine(l))
    ensures LinesInv(Apply(s, ScanLine(l)))
  {
    assert (s.scanned + [l])[..|s.scanned|] == s.scanned;
  }

  lemma ReceiveKeepsLines(s: State)
    requires LinesInv(s) && Enabled(s, ReceiveLine)
    ensures LinesInv(Apply(s, ReceiveLine))
  {
    Rotated(s.buf, s.lines);
  }

  lemma HandBack(s: State)
    requires s.producer.Sending? && s.scanned != [] && s.producer.line == s.scanned[|s.scanned| - 1]
    ensures s.scanned == Settled(s) + [s.producer.line]
  {
  }

  lemma SendKeepsLines(s: State)
    requires LinesInv(s) && ErrInv(s) && UpdatesInv(s) && Enabled(s, SendLine)
    ensures LinesInv(Apply(s, SendLine))
  {
    var t, l := Apply(s, SendLine), s.producer.line;
    HandBack(s);
    SubsequenceBoth(s.sent, Settled(s), l);
    assert s.buf + (s.lines + [l]) == (s.buf + s.lines) + [l];
  }

  lemma ErrStep(s: State, step: Step)
    requires LinesInv(s) && ErrInv(s) && UpdatesInv(s) && Enabled(s, step)
    ensures ErrInv(Apply(s, step))
  {
  }

  lemma UnfinishedGrows(us: seq<Update>, buf: seq<Line>, line: Line)
    requires Unfinished(us, buf)
    ensures Unfinished(us, buf + [line])
  {
    forall u | u in us ensures exists k :: 0 < k <= |buf + [line]| && u.text == Render((buf + [line])[..k]) {
      var k :| 0 < k <= |buf| && u.text == Render(buf[..k]);
      assert (buf + [line])[..k] == buf[..k];
    }
  }

  lemma UpdatesStep(s: State, step: Step)
    requires LinesInv(s) && ErrInv(s) && UpdatesInv(s) && Enabled(s, step)
    ensures UpdatesInv(Apply(s, step))
  {
    var t := Apply(s, step);
    match step {
      case ReceiveLine => UnfinishedGrows(s.updates, s.buf, s.lines[0]);
      case Tick =>
        assert s.buf[..|s.buf|] == s.buf;
      case FinalUpdate => assert t.updates[..|t.updates| - 1] == s.updates;
      case _ =>
    }
  }

  lemma {:induction false} RunKeepsInv(s: State, run: seq<Step>)
    requires Inv(s) && ValidRun(s, run)
    ensures Inv(After(s, run))
    decreases |run|
  {
    if run != [] {
      LinesStep(s, run[0]);
      ErrStep(s, run[0]);
      UpdatesStep(s, run[0]);
      RunKeepsInv(Apply(s, run[0]), run[1..]);
    }
  }

  // ---------------------------------------------------------------- safety over whole runs

  /** Whatever has been shown or is still to be shown is an in-order selection of the scanned lines;
      every update shows a prefix of it. */
  lemma TextIsSubsequence(budget: nat, run: seq<Step>)
    requires ValidRun(Init(budget), run)
    ensures var s := After(Init(budget), run);
            Subsequence(s.buf, s.scanned) && (!s.timedOut ==> s.buf + s.lines == Settled(s))
  {
    InvInit(budget);
    RunKeepsInv(Init(budget), run);
    LinesMean(After(Init(budget), run));
  }

  lemma LinesMean(s: State)
    requires LinesInv(s)
    ensures Subsequence(s.buf, s.scanned) && (!s.timedOut ==> s.buf + s.lines == Settled(s))
  {
    SubsequencePrefix(s.sent, Settled(s), |s.buf|);
    assert s.sent[..|s.buf|] == s.buf;
    if s.producer.Sending? {
      HandBack(s);
      SubsequenceSkip(s.buf, Settled(s), s.producer.line);
    }
  }

  /** When the consumer is through a stream: exactly one final update, the last one, with the whole text
      and the status the producer reported; without a timeout the text is every scanned line. */
  lemma FinalUpdateOnce(budget: nat, run: seq<Step>)
    requires ValidRun(Init(budget), run)
    requires After(Init(budget), run).consumer.Done? && BeginStream in run
    ensures var s := After(Init(budget), run);
            && s.producer.Finished? && s.updates != []
            && (forall i :: 0 <= i < |s.updates| ==> (s.updates[i].done <==> i == |s.updates| - 1))
            && s.updates[|s.updates| - 1].text == Render(s.buf)
            && (s.updates[|s.updates| - 1].success <==> s.producer.reported.None?)
            && (forall u :: u in s.updates ==> u.text <= Render(s.buf))
            && (!s.timedOut ==> s.buf == s.scanned)
  {
    InvInit(budget);
    RunKeepsInv(Init(budget), run);
    BegunStays(Init(budget), run);
    FinalMeans(After(Init(budget), run));
  }

  /** The error a step ends the process's part with: a failed pipe, a failed start or the process's exit. */
  function ExitOf(step: Step): seq<ExitError> {
    match step
    case PipeFails(e) => [Some(e)]
    case StartFails(e) => [Some(e)]
    case ProcessExits(err) => [err]
    case _ => []
  }

  /** How the stream ended, as the steps of the run say. */
  function Exits(run: seq<Step>): seq<ExitError> {
    if run == [] then [] else ExitOf(run[0]) + Exits(run[1..])
  }

  /** What the producer has to report, once it has something. */
  function Report(p: Producer): seq<ExitError> {
    match p
    case Reporting(err) => [err]
    case ClosingErr(err) => [err]
    case ClosingLines(err) => [err]
    case Finished(err) => [err]
    case _ => []
  }

  /** It is what the run has said, and said once. */
  lemma {:induction false} ReportIsExit(s: State, run: seq<Step>)
    requires ValidRun(s, run)
    ensures Report(After(s, run).producer) == Report(s.producer) + Exits(run)
    decreases |run|
  {
    if run != [] {
      ReportIsExit(Apply(s, run[0]), run[1..]);
      ReportStep(s, run[0]);
      Regroup(Report(s.producer), ExitOf(run[0]), Exits(run[1..]));
    }
  }

  lemma ReportStep(s: State, step: Step)
    requires Enabled(s, step)
    ensures Report(Apply(s, step).producer) == Report(s.producer) + ExitOf(step)
  {
    if ExitOf(step) == [] { QuietStep(s, step); } else { ExitingStep(s, step); }
  }

  lemma QuietStep(s: State, step: Step)
    requires Enabled(s, step) && ExitOf(step) == []
    ensures Report(Apply(s, step).producer) == Report(s.producer)
  {
    var after := Apply(s, step).producer;
    if step.SendErr? || step.CloseErr? || step.CloseLines? {
      assert Report(after) == [if step.SendErr? then s.producer.err else s.producer.reported];
    } else {
      assert after == s.producer || (Report(after) == [] && Report(s.producer) == []);
    }
  }

  lemma ExitingStep(s: State, step: Step)
    requires Enabled(s, step) && ExitOf(step) != []
    ensures Report(s.producer) == [] && Report(Apply(s, step).producer) == ExitOf(step)
  {
  }

  lemma Regroup(a: seq<ExitError>, b: seq<ExitError>, c: seq<ExitError>)
    ensures (a + b) + c == a + (b + c)
  {
  }

  lemma {:induction false} ExitIsStep(run: seq<Step>, err: ExitError)
    ensures err in Exits(run) <==>
            ProcessExits(err) in run || (err.Some? && (PipeFails(err.value) in run || StartFails(err.value) in run))
    decreases |run|
  {
    if run != [] { ExitIsStep(run[1..], err); }
  }

  /** The status shown is that of the process: over every run that began a stream and ended, exactly one of a
      failed pipe, a failed start and an exit of the process happened, and the last update shows success if
      and only if the process exited without an error. */
  lemma StatusIsExit(budget: nat, run: seq<Step>)
    requires ValidRun(Init(budget), run)
    requires After(Init(budget), run).consumer.Done? && BeginStream in run
    ensures var us := After(Init(budget), run).updates;
            && |Exits(run)| == 1 && us != [] && us[|us| - 1].done
            && (us[|us| - 1].success <==> Exits(run) == [None])
            && (us[|us| - 1].success <==> ProcessExits(None) in run)
  {
    FinalUpdateOnce(budget, run);
    ReportIsExit(Init(budget), run);
    assert Report(Init(budget).producer) + Exits(run) == Exits(run);
    ExitIsStep(run, None);
  }

  /** When the whitelist refuses the command, its message is all that is shown, as a failure. */
  lemma RefusalIsShown(budget: nat, run: seq<Step>, message: string)
    requires ValidRun(Init(budget), run) && run != [] && run[0] == Refused(message)
    ensures After(Init(budget), run).updates == [Update(message, true, false)]
  {
    DoneStays(Apply(Init(budget), run[0]), run[1..]);
  }

  lemma DoneStays(s: State, run: seq<Step>)
    requires ValidRun(s, run) && s.consumer.Done? && s.producer.Idle?
    ensures run == []
  {
  }

  lemma FinalMeans(s: State)
    requires FinalIsLast(s)
    ensures forall i :: 0 <= i < |s.updates| ==> (s.updates[i].done <==> i == |s.updates| - 1)
    ensures forall u :: u in s.updates ==> u.text <= Render(s.buf)
  {
    forall i | 0 <= i < |s.updates| - 1 ensures !s.updates[i].done {
      assert s.updates[i] == s.updates[..|s.updates| - 1][i];
    }
    forall u | u in s.updates ensures u.text <= Render(s.buf) {
      if u in s.updates[..|s.updates| - 1] {
        var k :| 0 < k <= |s.buf| && u.text == Render(s.buf[..k]);
        RenderGrows(s.buf, k);
      }
    }
  }

  lemma {:induction false} BegunStays(s: State, run: seq<Step>)
    requires ValidRun(s, run)
    ensures BeginStream in run || !s.producer.Idle? ==> !After(s, run).producer.Idle?
    decreases |run|
  {
    if run != [] { BegunStays(Apply(s, run[0]), run[1..]); }
  }

  // ---------------------------------------------------------------- progress

  /** Steps of the program itself that use something up: neither the ticker nor the deadline. */
  predicate Working(step: Step) {
    !step.Tick? && !step.Timeout?
  }

  predicate Final(s: State) {
    s.consumer.Done? && (s.producer.Idle? || s.producer.Finished?)
  }

  /** Once the lines channel is closed the error is there to be read. */
  lemma ErrReadNeverBlocks(budget: nat, run: seq<Step>)
    requires ValidRun(Init(budget), run) && After(Init(budget), run).consumer.ReadingErr?
    ensures var s := After(Init(budget), run);
            Enabled(s, ReadErr) && s.producer.Finished? && s.errc == [s.producer.reported]
  {
    InvInit(budget);
    RunKeepsInv(Init(budget), run);
  }

  /** The step that some side can always take. */
  function NextStep(s: State): Step {
    match s.producer
    case Idle => CardFails
    case Opening => PipeOpens
    case Starting => Started
    case Scanning => ScanEnds
    case Sending(_) => if |s.lines| < LINES_CAP then SendLine else ReceiveLine
    case Waiting => ProcessExits(None)
    case Reporting(_) => SendErr
    case ClosingErr(_) => CloseErr
    case ClosingLines(_) => CloseLines
    case Finished(_) =>
      match s.consumer
      case Looping => if s.lines != [] then ReceiveLine else ReceiveClosed
      case ReadingErr => ReadErr
      case Concluding(_) => FinalUpdate
      case _ => Return
  }

  /** No reachable state before the end is stuck, with or without a timeout. */
  lemma NoDeadlock(budget: nat, run: seq<Step>)
    requires ValidRun(Init(budget), run) && !Final(After(Init(budget), run))
    ensures exists step :: Working(step) && Enabled(After(Init(budget), run), step)
  {
    InvInit(budget);
    RunKeepsInv(Init(budget), run);
    var s := After(Init(budget), run);
    assert Working(NextStep(s)) && Enabled(s, NextStep(s));
  }

  function ProducerRank(p: Producer): nat {
    match p
    case Idle => 12
    case Opening => 10
    case Starting => 9
    case Scanning => 5
    case Sending(_) => 7
    case Waiting => 4
    case Reporting(_) => 3
    case ClosingErr(_) => 2
    case ClosingLines(_) => 1
    case Finished(_) => 0
  }

  function ConsumerRank(c: Consumer): nat {
    match c
    case Begin => 5
    case Looping => 4
    case ReadingErr => 3
    case Concluding(_) => 2
    case Returning => 1
    case Done => 0
  }

  function Measure(s: State): nat {
    3 * s.budget + ProducerRank(s.producer) + ConsumerRank(s.consumer) + |s.lines|
  }

  /** Every working step uses something up; ticks and the deadline do not add work. */
  lemma StepDecreases(s: State, step: Step)
    requires Enabled(s, step)
    ensures Working(step) ==> Measure(Apply(s, step)) < Measure(s)
    ensures !Working(step) ==> Measure(Apply(s, step)) == Measure(s)
  {
    if Producing(step) {
      ProducingDecreases(s, step);
    } else {
      match step {
        case SendLine => assert |Apply(s, step).lines| == |s.lines| + 1;
        case ReceiveLine => assert |Apply(s, step).lines| == |s.lines| - 1;
        case _ =>
      }
    }
  }

  lemma ProducingDecreases(s: State, step: Step)
    requires Enabled(s, step) && Producing(step)
    ensures Measure(Apply(s, step)) < Measure(s)
  {
    assert Apply(s, step).consumer == s.consumer && Apply(s, step).lines == s.lines;
  }

  function WorkingSteps(run: seq<Step>): nat {
    if run == [] then 0 else (if Working(run[0]) then 1 else 0) + WorkingSteps(run[1..])
  }

  /** Termination: a process printing at most `budget` lines allows at most 3 * budget + 17 working steps,
      however the two sides, the ticker and the deadline interleave. */
  lemma WorkIsBounded(budget: nat, run: seq<Step>)
    requires ValidRun(Init(budget), run)
    ensures WorkingSteps(run) <= 3 * budget + 17
  {
    WorkBoundedFrom(Init(budget), run);
  }

  lemma {:induction false} WorkBoundedFrom(s: State, run: seq<Step>)
    requires ValidRun(s, run)
    ensures WorkingSteps(run) + Measure(After(s, run)) <= Measure(s)
    decreases |run|
  {
    if run != [] {
      StepDecreases(s, run[0]);
      WorkBoundedFrom(Apply(s, run[0]), run[1..]);
    }
  }

  /** Characters of the lines, and one more for each. */
  function Length(lines: seq<Line>): nat {
    if lines == [] then 0 else Length(lines[..|lines| - 1]) + |lines[|lines| - 1]| + 1
  }

  /** The text is as long as its lines, each with a newline, and every line stands behind the lines before it. */
  lemma {:induction false} RenderIsLines(lines: seq<Line>, k: nat)
    requires k < |lines|
    ensures |Render(lines)| == Length(lines)
    ensures var from := Length(lines[..k]);
            from + |lines[k]| + 1 <= |Render(lines)| && Render(lines)[from..from + |lines[k]| + 1] == lines[k] + ['\n']
    decreases |lines|
  {
    var rest, last := lines[..|lines| - 1], lines[|lines| - 1];
    RenderLength(rest);
    if k < |lines| - 1 {
      RenderIsLines(rest, k);
      assert rest[..k] == lines[..k];
      var from := Length(lines[..k]);
      SliceOfFirst(Render(rest), last + "\n", from, from + |lines[k]| + 1);
      assert Render(lines) == Render(rest) + (last + "\n");
    } else {
      assert lines[..k] == rest;
      assert Render(lines) == Render(rest) + (last + "\n");
      SliceOfSecond(Render(rest), last + "\n");
    }
  }

  lemma SliceOfFirst(a: string, b: string, i: nat, j: nat)
    requires i <= j <= |a|
    ensures (a + b)[i..j] == a[i..j]
  {
  }

  lemma SliceOfSecond(a: string, b: string)
    ensures (a + b)[|a|..|a| + |b|] == b
  {
  }

  lemma {:induction false} RenderLength(lines: seq<Line>)
    ensures |Render(lines)| == Length(lines)
    decreases |lines|
  {
    if lines != [] { RenderLength(lines[..|lines| - 1]); }
  }

  // ---------------------------------------------------------------- what must be possible

  /** A tick that finds text shows all of it, as unfinished; one that finds none shows nothing. */
  lemma TickShows(s: State)
    requires s.consumer.Looping?
    ensures Enabled(s, Tick)
    ensures Apply(s, Tick) ==
            if s.buf == [] then s else s.(updates := s.updates + [Update(Render(s.buf), false, false)])
  {
  }

  /** A line in the producer's hands can be put on the channel while fewer than 64 wait there, and can be
      dropped exactly when the context is cancelled. */
  lemma ChannelHolds(budget: nat, run: seq<Step>)
    requires ValidRun(Init(budget), run)
    ensures var s := After(Init(budget), run);
            && |s.lines| <= 64
            && (s.producer.Sending? ==> (Enabled(s, SendLine) <==> |s.lines| < 64))
            && (s.producer.Sending? ==> (Enabled(s, DropLine) <==> s.cancelled))
  {
    InvInit(budget);
    RunKeepsInv(Init(budget), run);
  }

  /** The deadline may strike at any moment of the stream. */
  lemma DeadlineAnytime(budget: nat, run: seq<Step>)
    requires ValidRun(Init(budget), run) && BeginStream in run && !After(Init(budget), run).cancelled
    ensures Enabled(After(Init(budget), run), Timeout)
    ensures Apply(After(Init(budget), run), Timeout).cancelled
  {
    BegunStays(Init(budget), run);
  }

  lemma {:induction false} RunOne(s: State, run: seq<Step>, step: Step)
    requires ValidRun(s, run) && Enabled(After(s, run), step)
    ensures ValidRun(s, run + [step]) && After(s, run + [step]) == Apply(After(s, run), step)
    decreases |run|
  {
    if run == [] {
      assert (run + [step])[1..] == [];
    } else {
      assert (run + [step])[1..] == run[1..] + [step];
      RunOne(Apply(s, run[0]), run[1..], step);
    }
  }

  /** A step appended to a run, with the state it leads to. */
  lemma Go(budget: nat, run: seq<Step>, s: State, step: Step, t: State) returns (longer: seq<Step>)
    requires ValidRun(Init(budget), run) && After(Init(budget), run) == s
    requires Enabled(s, step) && Apply(s, step) == t
    ensures longer == run + [step] && ValidRun(Init(budget), longer) && After(Init(budget), longer) == t
  {
    RunOne(Init(budget), run, step);
    longer := run + [step];
  }

  /** The state in which `shown` has been printed, sent and shown, and no more. */
  function Midway(budget: nat, shown: seq<Line>): State
    requires |shown| <= budget
  {
    Init(budget).(producer := Scanning, consumer := Looping, buf := shown, scanned := shown, sent := shown,
                  budget := budget - |shown|)
  }

  lemma {:induction false} ShowLines(budget: nat, lines: seq<Line>) returns (run: seq<Step>)
    requires |lines| <= budget
    ensures ValidRun(Init(budget), run) && After(Init(budget), run) == Midway(budget, lines)
    ensures BeginStream in run
    decreases |lines|
  {
    if lines == [] {
      var s := Init(budget);
      run := Go(budget, [], s, BeginStream, s.(consumer := Looping, producer := Opening));
      run := Go(budget, run, After(s, run), PipeOpens, s.(consumer := Looping, producer := Starting));
      run := Go(budget, run, After(s, run), Started, Midway(budget, []));
    } else {
      var rest, l := lines[..|lines| - 1], lines[|lines| - 1];
      assert rest + [l] == lines;
      run := ShowLines(budget, rest);
      var s := Midway(budget, rest);
      var s1 := s.(producer := Sending(l), scanned := lines, budget := budget - |lines|);
      run := Go(budget, run, s, ScanLine(l), s1);
      var s2 := s1.(producer := Scanning, lines := [l], sent := lines);
      run := Go(budget, run, s1, SendLine, s2);
      run := Go(budget, run, s2, ReceiveLine, Midway(budget, lines));
    }
  }

  /** The state in which the process has exited and everything but the final update has been shown. */
  function Closed(lines: seq<Line>, err: ExitError): State {
    Midway(|lines|, lines).(producer := Finished(err), errc := [err], errcClosed := true, linesClosed := true)
  }

  lemma CloseStream(lines: seq<Line>, err: ExitError) returns (run: seq<Step>)
    ensures ValidRun(Init(|lines|), run) && After(Init(|lines|), run) == Closed(lines, err)
    ensures BeginStream in run
  {
    var n := |lines|;
    run := ShowLines(n, lines);
    var s := Midway(n, lines);
    run := Go(n, run, s, ScanEnds, s.(producer := Waiting));
    run := Go(n, run, s.(producer := Waiting), ProcessExits(err), s.(producer := Reporting(err)));
    var s1 := s.(producer := ClosingErr(err), errc := [err]);
    run := Go(n, run, s.(producer := Reporting(err)), SendErr, s1);
    var s2 := s1.(producer := ClosingLines(err), errcClosed := true);
    run := Go(n, run, s1, CloseErr, s2);
    run := Go(n, run, s2, CloseLines, Closed(lines, err));
  }

  /** Whatever a process prints and however it exits, some run shows just that. */
  lemma EverythingCanBeShown(lines: seq<Line>, err: ExitError) returns (run: seq<Step>)
    ensures ValidRun(Init(|lines|), run) && BeginStream in run
    ensures var s := After(Init(|lines|), run);
            s.consumer.Done? && s.updates == [Update(Render(lines), true, err == None)]
  {
    var n := |lines|;
    run := CloseStream(lines, err);
    var s := Closed(lines, err);
    run := Go(n, run, s, ReceiveClosed, s.(consumer := ReadingErr));
    var s1 := s.(consumer := Concluding(err), errc := []);
    run := Go(n, run, s.(consumer := ReadingErr), ReadErr, s1);
    var s2 := s1.(consumer := Returning, updates := [Update(Render(lines), true, err == None)]);
    run := Go(n, run, s1, FinalUpdate, s2);
    run := Go(n, run, s2, Return, s2.(consumer := Done, cancelled := true));
  }

  /** Card texts of earlier updates are prefixes of later ones: the card only grows. */
  lemma RenderGrows(lines: seq<Line>, k: nat)
    requires k <= |lines|
    ensures Render(lines[..k]) <= Render(lines)
    decreases |lines|
  {
    if k < |lines| {
      var shorter := lines[..|lines| - 1];
      RenderGrows(shorter, k);
      assert shorter[..k] == lines[..k];
    } else {
      assert lines[..k] == lines;
    }
  }
}
