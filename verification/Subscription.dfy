/**
 * The goroutine behind a channel subscription, its consumer and cancellation, one step at a time in
 * any order: a buffer for 16 messages, one slot for an error, and the two channels' closing order.
 */
module Subscription {
  import opened Text
  import opened Lines
  import opened Frames
  import opened ChannelReader

  const CAPACITY := 16

  /** The bytes the body returns before it ends, how it ends, and the decoder. */
  datatype Setting<!M> = Setting(body: string, broken: bool, decode: string -> Option<M>)
  {
    function Scan(): Scanned {
      Split(body, CHANNEL_LIMIT)
    }

    function Parsed(): Outcome<M> {
      Messages(body, decode)
    }

    function Terminal(): Option<StreamError> {
      TerminalError(Parsed(), Scan().tooLong, broken)
    }
  }

  datatype Producer<+M> =
    | Reading
    | Sending(msg: M)
    | Reporting(error: StreamError)
    | ClosingErrs
    | ClosingEvents
    | Exited

  /** What a receive from the error channel gave: nothing yet, an error, or that the channel is closed. */
  datatype ErrsRead = NotYet | Got(error: StreamError) | Closed

  datatype State<+M> = State(
    producer: Producer<M>, read: nat, held: Held,
    buffer: seq<M>, received: seq<M>, eventsClosed: bool,
    slot: Option<StreamError>, puts: nat, errsClosed: bool, errsRead: ErrsRead,
    cancelled: bool)
  {
    function Sent(): seq<M> {
      received + buffer
    }
  }

  const EMPTY := Held("", "")

  function Start<M>(): State<M> {
    State(Reading, 0, EMPTY, [], [], false, None, 0, false, NotYet, false)
  }

  datatype Action = ReadLine | Send | Abandon | Report | CloseErrs | CloseEvents | Receive | ReceiveErr | Cancel

  predicate ByProducer(a: Action) {
    a.ReadLine? || a.Send? || a.Abandon? || a.Report? || a.CloseErrs? || a.CloseEvents?
  }

  predicate Enabled<M>(st: State<M>, a: Action) {
    match a
    case ReadLine => st.producer.Reading?
    case Send => st.producer.Sending? && |st.buffer| < CAPACITY
    case Abandon => st.producer.Sending? && st.cancelled
    case Report => st.producer.Reporting? && st.slot.None?
    case CloseErrs => st.producer.ClosingErrs?
    case CloseEvents => st.producer.ClosingEvents?
    case Receive => st.buffer != []
    case ReceiveErr => st.errsRead.NotYet? && (st.slot.Some? || st.errsClosed)
    case Cancel => !st.cancelled
  }

  /** A line read, or the end of the scan. */
  function AfterLine<M>(setting: Setting<M>, st: State<M>): State<M> {
    var scan := setting.Scan();
    if st.read >= |scan.lines| then
      if (scan.tooLong || setting.broken) && !st.cancelled
      then st.(producer := Reporting(if scan.tooLong then LineTooLong else BodyBroken))
      else st.(producer := ClosingErrs)
    else
      var line, next := scan.lines[st.read], st.(read := st.read + 1);
      if line != "" then next.(held := AddLine(st.held, line))
      else
        match Decoded(Payload(st.held), setting.decode)
        case Skip => next.(held := EMPTY)
        case Emit(m) => next.(producer := Sending(m))
        case Fail => next.(producer := if st.cancelled then ClosingErrs else Reporting(DecodeFailed))
  }

  function Step<M>(setting: Setting<M>, st: State<M>, a: Action): State<M>
    requires Enabled(st, a)
  {
    match a
    case ReadLine => AfterLine(setting, st)
    case Send => st.(producer := Reading, held := EMPTY, buffer := st.buffer + [st.producer.msg])
    case Abandon => st.(producer := ClosingErrs)
    case Report => st.(producer := ClosingErrs, slot := Some(st.producer.error), puts := st.puts + 1)
    case CloseErrs => st.(producer := ClosingEvents, errsClosed := true)
    case CloseEvents => st.(producer := Exited, eventsClosed := true)
    case Receive => st.(received := st.received + [st.buffer[0]], buffer := st.buffer[1..])
    case ReceiveErr =>
      if st.slot.Some? then st.(slot := None, errsRead := Got(st.slot.value)) else st.(errsRead := Closed)
    case Cancel => st.(cancelled := true)
  }

  // What every step keeps.

  /** The producer's own position in the stream. */
  ghost predicate Placed<M>(setting: Setting<M>, st: State<M>) {
    var lines, all, terminal := setting.Scan().lines, setting.Parsed().events, setting.Terminal();
    && st.read <= |lines|
    && match st.producer
       case Reading => At(lines[..st.read], st.held, st.Sent(), setting.decode)
       case Sending(m) => At(lines[..st.read], EMPTY, st.Sent() + [m], setting.decode)
       case Reporting(e) => st.Sent() == all && terminal == Some(e)
       case _ => st.Sent() <= all && (!st.cancelled ==> st.Sent() == all && (terminal.Some? ==> st.puts == 1))
  }

  ghost predicate Channels<M>(setting: Setting<M>, st: State<M>) {
    && |st.buffer| <= CAPACITY
    && st.puts <= 1
    && (st.puts == 1 <==> st.slot.Some? || st.errsRead.Got?)
    && (st.slot.Some? ==> st.slot == setting.Terminal() && st.errsRead.NotYet?)
    && (st.errsRead.Got? ==> Some(st.errsRead.error) == setting.Terminal())
    && (st.errsRead.Closed? ==> st.errsClosed && st.puts == 0)
    && (st.errsClosed <==> st.producer.ClosingEvents? || st.producer.Exited?)
    && (st.eventsClosed <==> st.producer.Exited?)
    && (st.producer.Reading? || st.producer.Sending? || st.producer.Reporting? ==> st.puts == 0)
  }

  ghost predicate Kept<M>(setting: Setting<M>, st: State<M>) {
    Placed(setting, st) && Channels(setting, st)
  }

  lemma {:induction false} StartIsKept<M>(setting: Setting<M>)
    ensures Kept(setting, Start())
  {
    AtStart(setting.decode);
    assert setting.Scan().lines[..0] == [];
  }

  lemma {:induction false} LineKeeps<M>(setting: Setting<M>, st: State<M>)
    requires Kept(setting, st) && st.producer.Reading?
    ensures Kept(setting, AfterLine(setting, st))
  {
    hide At, AddLine, Payload, Messages, Split;
    var lines := setting.Scan().lines;
    var seen := lines[..st.read];
    AtSoFar(seen, st.held, st.Sent(), setting.body, setting.decode);
    if st.read < |lines| {
      assert lines[..st.read + 1] == seen + [lines[st.read]];
      AtLine(seen, lines[st.read], st.held, st.Sent(), setting.body, setting.decode);
    } else {
      assert seen == lines;
    }
  }

  lemma {:induction false} SendKeeps<M>(setting: Setting<M>, st: State<M>)
    requires Kept(setting, st) && Enabled(st, Send)
    ensures Kept(setting, Step(setting, st, Send))
  {
    hide At, Messages, Split;
    assert st.received + (st.buffer + [st.producer.msg]) == st.Sent() + [st.producer.msg];
  }

  lemma {:induction false} AbandonKeeps<M>(setting: Setting<M>, st: State<M>)
    requires Kept(setting, st) && Enabled(st, Abandon)
    ensures Kept(setting, Step(setting, st, Abandon))
  {
    hide At, Messages, Split;
    var seen, all := setting.Scan().lines[..st.read], st.Sent() + [st.producer.msg];
    AtSoFar(seen, EMPTY, all, setting.body, setting.decode);
  }

  lemma {:induction false} StepKeeps<M>(setting: Setting<M>, st: State<M>, a: Action)
    requires Kept(setting, st) && Enabled(st, a)
    ensures Kept(setting, Step(setting, st, a))
  {
    hide At, Messages, Split, AfterLine;
    match a {
      case ReadLine => LineKeeps(setting, st);
      case Send => SendKeeps(setting, st);
      case Abandon => AbandonKeeps(setting, st);
      case Receive =>
        assert (st.received + [st.buffer[0]]) + st.buffer[1..] == st.Sent();
      case _ =>
    }
  }

  // Runs.

  ghost predicate Possible<M>(setting: Setting<M>, st: State<M>, actions: seq<Action>)
    decreases |actions|
  {
    actions != [] ==> Enabled(st, actions[0]) && Possible(setting, Step(setting, st, actions[0]), actions[1..])
  }

  ghost function RunOf<M>(setting: Setting<M>, st: State<M>, actions: seq<Action>): State<M>
    requires Possible(setting, st, actions)
    decreases |actions|
  {
    if actions == [] then st else RunOf(setting, Step(setting, st, actions[0]), actions[1..])
  }

  lemma {:induction false} RunKeeps<M>(setting: Setting<M>, st: State<M>, actions: seq<Action>)
    requires Kept(setting, st) && Possible(setting, st, actions)
    ensures Kept(setting, RunOf(setting, st, actions))
    decreases |actions|
  {
    hide Kept, Step, Enabled;
    if actions != [] {
      StepKeeps(setting, st, actions[0]);
      RunKeeps(setting, Step(setting, st, actions[0]), actions[1..]);
    }
  }

  /**
   * In every interleaving: the buffer never holds more than 16, what was received starts what was sent,
   * which starts what the stream parses to; at most one error is ever put; the error channel closes
   * first; and nothing is sent, nor an error put, on a closed channel.
   */
  lemma {:induction false} EveryRunIsSafe<M>(setting: Setting<M>, actions: seq<Action>)
    requires Possible(setting, Start(), actions)
    ensures var st := RunOf(setting, Start(), actions);
            && |st.buffer| <= 16
            && st.received <= st.Sent() <= setting.Parsed().events
            && st.puts <= 1
            && (st.eventsClosed ==> st.errsClosed)
            && (st.producer.Sending? ==> !st.eventsClosed)
            && (st.producer.Reporting? ==> !st.errsClosed && st.slot.None?)
  {
    hide At, Messages, Split, RunOf, Possible;
    StartIsKept(setting);
    RunKeeps(setting, Start(), actions);
    var st := RunOf(setting, Start(), actions);
    SentIsParsed(setting, st);
  }

  lemma {:induction false} SentIsParsed<M>(setting: Setting<M>, st: State<M>)
    requires Kept(setting, st)
    ensures st.Sent() <= setting.Parsed().events
  {
    hide At, Messages, Split;
    var seen := setting.Scan().lines[..st.read];
    match st.producer
    case Reading => AtSoFar(seen, st.held, st.Sent(), setting.body, setting.decode);
    case Sending(m) => AtSoFar(seen, EMPTY, st.Sent() + [m], setting.body, setting.decode);
    case _ =>
  }

  /** The error of the stream, from its frames and its bytes. */
  lemma {:induction false} TerminalIs<M>(setting: Setting<M>)
    ensures setting.Terminal() ==
            if SomeFails(Completed(setting.body, CHANNEL_LIMIT), Handler(setting.decode)) then Some(DecodeFailed)
            else if HasLongRun(setting.body, 16777216) then Some(LineTooLong)
            else if setting.broken then Some(BodyBroken)
            else None
  {
    hide SomeFails, HasLongRun, Handler, Completed, TerminalError, Split, Deliver;
    TerminalErrorIs(Completed(setting.body, CHANNEL_LIMIT), Handler(setting.decode), setting.body, CHANNEL_LIMIT,
        setting.broken);
  }

  /**
   * Once the events are drained, a receive from the error channel does not block, and it gives the
   * stream's terminal error or nothing; without cancellation everything was received and it gives
   * exactly the terminal error.
   */
  lemma {:induction false} DrainedRunEnds<M>(setting: Setting<M>, actions: seq<Action>)
    requires Possible(setting, Start(), actions)
    ensures var st := RunOf(setting, Start(), actions);
            var fails := SomeFails(Completed(setting.body, CHANNEL_LIMIT), Handler(setting.decode));
            var error := if fails then Some(DecodeFailed)
                         else if HasLongRun(setting.body, 16777216) then Some(LineTooLong)
                         else if setting.broken then Some(BodyBroken)
                         else None;
            st.eventsClosed && st.buffer == [] ==>
              && (st.errsRead.NotYet? ==> Enabled(st, ReceiveErr))
              && (var read := if st.errsRead.NotYet? then Step(setting, st, ReceiveErr).errsRead else st.errsRead;
                  if st.cancelled then read.Closed? || (read.Got? && Some(read.error) == error)
                  else
                    && st.received == Messages(setting.body, setting.decode).events
                    && read == match error case None => Closed case Some(e) => Got(e))
  {
    hide At, Messages, Split, RunOf, Possible, SomeFails, HasLongRun, Handler, Completed, TerminalError;
    TerminalIs(setting);
    StartIsKept(setting);
    RunKeeps(setting, Start(), actions);
    var st := RunOf(setting, Start(), actions);
    if st.buffer == [] {
      assert st.Sent() == st.received;
    }
  }

  /** The producer steps that are left at most. */
  function Work<M>(setting: Setting<M>, st: State<M>): int {
    2 * (|setting.Scan().lines| - st.read) +
    match st.producer
    case Reading => 4
    case Sending(_) => 5
    case Reporting(_) => 3
    case ClosingErrs => 2
    case ClosingEvents => 1
    case Exited => 0
  }

  /** Every producer step uses up work, and nobody else's step adds any. */
  lemma {:induction false} StepWorks<M>(setting: Setting<M>, st: State<M>, a: Action)
    requires Kept(setting, st) && Enabled(st, a)
    ensures if ByProducer(a) then Work(setting, Step(setting, st, a)) < Work(setting, st)
            else Work(setting, Step(setting, st, a)) == Work(setting, st)
  {
    hide At, Messages, Split, Payload, AddLine;
  }

  lemma {:induction false} WorkIsLeft<M>(setting: Setting<M>, st: State<M>)
    requires Kept(setting, st)
    ensures Work(setting, st) >= 0
  {
    hide At, Messages, Split;
  }

  /**
   * Nothing can block for good: until it exits the producer can always take a step, unless the buffer
   * is full, nothing is cancelled and the consumer can receive; every producer step uses up work, and
   * nobody else's step adds any.
   */
  lemma {:induction false} NothingBlocks<M>(setting: Setting<M>, actions: seq<Action>)
    requires Possible(setting, Start(), actions)
    ensures var st := RunOf(setting, Start(), actions);
            && (st.producer.Exited? ||
                (exists a :: ByProducer(a) && Enabled(st, a)) ||
                (!st.cancelled && |st.buffer| == CAPACITY && Enabled(st, Receive)))
            && Work(setting, st) >= 0
            && forall a :: Enabled(st, a) ==>
                 if ByProducer(a) then Work(setting, Step(setting, st, a)) < Work(setting, st)
                 else Work(setting, Step(setting, st, a)) == Work(setting, st)
  {
    hide At, Messages, Split, RunOf, Possible, Step, Work;
    StartIsKept(setting);
    RunKeeps(setting, Start(), actions);
    var st := RunOf(setting, Start(), actions);
    WorkIsLeft(setting, st);
    forall a | Enabled(st, a)
      ensures if ByProducer(a) then Work(setting, Step(setting, st, a)) < Work(setting, st)
              else Work(setting, Step(setting, st, a)) == Work(setting, st)
    {
      StepWorks(setting, st, a);
    }
    match st.producer
    case Reading => assert ByProducer(ReadLine) && Enabled(st, ReadLine);
    case Sending(_) =>
      if st.cancelled {
        assert ByProducer(Abandon) && Enabled(st, Abandon);
      } else if |st.buffer| < CAPACITY {
        assert ByProducer(Send) && Enabled(st, Send);
      }
    case Reporting(_) => assert ByProducer(Report) && Enabled(st, Report);
    case ClosingErrs => assert ByProducer(CloseErrs) && Enabled(st, CloseErrs);
    case ClosingEvents => assert ByProducer(CloseEvents) && Enabled(st, CloseEvents);
    case Exited =>
  }

  function ProducerSteps(actions: seq<Action>): nat {
    if actions == [] then 0 else (if ByProducer(actions[0]) then 1 else 0) + ProducerSteps(actions[1..])
  }

  /** The steps of anybody that are left at most: a send adds one receive. */
  function AllWork<M>(setting: Setting<M>, st: State<M>): int {
    2 * Work(setting, st) + |st.buffer| + (if st.errsRead.NotYet? then 1 else 0) + (if st.cancelled then 0 else 1)
  }

  lemma {:induction false} AnyStepWorks<M>(setting: Setting<M>, st: State<M>, a: Action)
    requires Kept(setting, st) && Enabled(st, a)
    ensures AllWork(setting, Step(setting, st, a)) < AllWork(setting, st)
  {
    hide Kept, Work, AddLine, Payload, Split, Messages;
    StepWorks(setting, st, a);
  }

  lemma {:induction false} RunWorks<M>(setting: Setting<M>, st: State<M>, actions: seq<Action>)
    requires Kept(setting, st) && Possible(setting, st, actions)
    ensures ProducerSteps(actions) <= Work(setting, st)
    ensures |actions| <= AllWork(setting, st)
    decreases |actions|
  {
    hide Kept, Step, Enabled, Work;
    WorkIsLeft(setting, st);
    if actions != [] {
      var next := Step(setting, st, actions[0]);
      StepKeeps(setting, st, actions[0]);
      StepWorks(setting, st, actions[0]);
      AnyStepWorks(setting, st, actions[0]);
      RunWorks(setting, next, actions[1..]);
    }
  }

  /**
   * Every run ends: it holds at most four producer steps more than twice the lines, and twice that and
   * two steps in all. Where neither the producer nor a receive can go on, the producer has exited and
   * the buffer is drained.
   */
  lemma {:induction false} EveryRunEnds<M>(setting: Setting<M>, actions: seq<Action>)
    requires Possible(setting, Start(), actions)
    ensures ProducerSteps(actions) <= 2 * |setting.Scan().lines| + 4
    ensures |actions| <= 4 * |setting.Scan().lines| + 10
    ensures var st := RunOf(setting, Start(), actions);
            (forall a :: ByProducer(a) || a == Receive ==> !Enabled(st, a)) ==> st.producer.Exited? && st.buffer == []
  {
    hide Kept, Possible, RunOf, Enabled, Split;
    StartIsKept(setting);
    RunWorks(setting, Start(), actions);
    NothingBlocks(setting, actions);
    var st := RunOf(setting, Start(), actions);
    assert Enabled(st, Receive) <==> st.buffer != [] by {
      CanReceive(st);
    }
  }

  lemma {:induction false} CanReceive<M>(st: State<M>)
    ensures Enabled(st, Receive) <==> st.buffer != []
  {
  }

  /**
   * Total correctness: a run that cannot go on, but for a cancellation, has exited with both channels
   * closed and everything received that was sent; the consumer has read the terminal error or that
   * there is none; and if nothing was cancelled it has exactly the stream's messages and its error.
   */
  lemma {:induction false} FinishedRunIsComplete<M>(setting: Setting<M>, actions: seq<Action>)
    requires Possible(setting, Start(), actions)
    requires forall a :: Enabled(RunOf(setting, Start(), actions), a) ==> a == Cancel
    ensures var st := RunOf(setting, Start(), actions);
            var fails := SomeFails(Completed(setting.body, CHANNEL_LIMIT), Handler(setting.decode));
            var error := if fails then Some(DecodeFailed)
                         else if HasLongRun(setting.body, 16777216) then Some(LineTooLong)
                         else if setting.broken then Some(BodyBroken)
                         else None;
            && st.producer.Exited? && st.eventsClosed && st.errsClosed && st.received == st.Sent()
            && (if st.cancelled
                then st.errsRead == Closed || (st.errsRead.Got? && Some(st.errsRead.error) == error)
                else
                  && st.received == Messages(setting.body, setting.decode).events
                  && st.errsRead == match error case None => Closed case Some(e) => Got(e))
  {
    hide At, Messages, Split, RunOf, Possible, Enabled, SomeFails, HasLongRun, Handler, Completed;
    EveryRunEnds(setting, actions);
    StartIsKept(setting);
    RunKeeps(setting, Start(), actions);
    DrainedRunEnds(setting, actions);
    var st := RunOf(setting, Start(), actions);
    assert !Enabled(st, ReceiveErr);
    assert st.Sent() == st.received;
  }

  // Cancellation.

  /** Cancelled before the stream ended or a frame failed, a subscription never reports an error. */
  lemma {:induction false} CancelledIsSilent<M>(setting: Setting<M>, st: State<M>, actions: seq<Action>)
    requires Kept(setting, st) && Possible(setting, st, actions)
    requires st.cancelled && (st.producer.Reading? || st.producer.Sending?)
    ensures var end := RunOf(setting, st, actions); end.puts == 0 && !end.errsRead.Got? && end.slot == None
  {
    hide At, Messages, Split, RunOf, Possible;
    QuietRun(setting, st, actions);
    RunKeeps(setting, st, actions);
  }

  predicate Quiet<M>(st: State<M>) {
    st.cancelled && st.puts == 0 && !st.producer.Reporting?
  }

  lemma {:induction false} QuietRun<M>(setting: Setting<M>, st: State<M>, actions: seq<Action>)
    requires Quiet(st) && Possible(setting, st, actions)
    ensures Quiet(RunOf(setting, st, actions))
    decreases |actions|
  {
    hide Step, Enabled, Quiet;
    if actions != [] {
      QuietStep(setting, st, actions[0]);
      QuietRun(setting, Step(setting, st, actions[0]), actions[1..]);
    }
  }

  lemma {:induction false} QuietStep<M>(setting: Setting<M>, st: State<M>, a: Action)
    requires Quiet(st) && Enabled(st, a)
    ensures Quiet(Step(setting, st, a))
  {
    hide Split, Payload, AddLine;
  }

  /** The caller may cancel at any moment, and a send then competes with it: either may win. */
  lemma {:induction false} EitherMayWin<M>(st: State<M>, setting: Setting<M>)
    ensures !st.cancelled ==> Enabled(st, Cancel) && Step(setting, st, Cancel) == st.(cancelled := true)
    ensures st.producer.Sending? && st.cancelled ==>
              && Enabled(st, Abandon) && Step(setting, st, Abandon).Sent() == st.Sent()
              && (|st.buffer| < 16 ==>
                    && Enabled(st, Send)
                    && Step(setting, st, Send).Sent() == st.Sent() + [st.producer.msg])
  {
    if st.producer.Sending? {
      assert st.received + (st.buffer + [st.producer.msg]) == st.Sent() + [st.producer.msg];
    }
  }

  // Nothing is ever stuck.

  lemma {:induction false} OnlyCancelCancels<M>(setting: Setting<M>, st: State<M>, a: Action)
    requires Enabled(st, a) && a != Cancel
    ensures Step(setting, st, a).cancelled == st.cancelled
  {
    hide Split, Payload, AddLine;
  }

  lemma {:induction false} AllWorkIsLeft<M>(setting: Setting<M>, st: State<M>)
    requires Kept(setting, st)
    ensures AllWork(setting, st) >= 0
  {
    hide Kept, Work;
    WorkIsLeft(setting, st);
  }

  /** From wherever a run has come to, it can be finished without cancelling it. */
  lemma {:induction false} CanFinish<M>(setting: Setting<M>, st: State<M>) returns (actions: seq<Action>)
    requires Kept(setting, st)
    ensures Possible(setting, st, actions)
    ensures RunOf(setting, st, actions).cancelled == st.cancelled
    ensures forall a :: Enabled(RunOf(setting, st, actions), a) ==> a == Cancel
    decreases AllWork(setting, st)
  {
    hide Kept, Step, Enabled, AllWork;
    AllWorkIsLeft(setting, st);
    if a :| Enabled(st, a) && a != Cancel {
      var next := Step(setting, st, a);
      StepKeeps(setting, st, a);
      AnyStepWorks(setting, st, a);
      AllWorkIsLeft(setting, next);
      OnlyCancelCancels(setting, st, a);
      var rest := CanFinish(setting, next);
      actions := [a] + rest;
      assert actions[0] == a && actions[1..] == rest;
    } else {
      actions := [];
    }
  }

  /** Every stream has a run in which the consumer receives all of its messages and its error. */
  lemma {:induction false} SomeRunDelivers<M>(setting: Setting<M>) returns (actions: seq<Action>)
    ensures Possible(setting, Start(), actions)
    ensures var end := RunOf(setting, Start(), actions);
            var fails := SomeFails(Completed(setting.body, CHANNEL_LIMIT), Handler(setting.decode));
            var error := if fails then Some(DecodeFailed)
                         else if HasLongRun(setting.body, 16777216) then Some(LineTooLong)
                         else if setting.broken then Some(BodyBroken)
                         else None;
            && end.received == Messages(setting.body, setting.decode).events
            && end.errsRead == (match error case None => Closed case Some(e) => Got(e))
            && end.eventsClosed && end.errsClosed
  {
    hide Messages, RunOf, Possible, Enabled, SomeFails, HasLongRun, Handler, Completed, Kept;
    StartIsKept(setting);
    actions := CanFinish(setting, Start());
    FinishedRunIsComplete(setting, actions);
  }
}
