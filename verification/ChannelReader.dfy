/** The named-channel subscription reader: unfinished frames are discarded. */
module ChannelReader {
  import opened Text
  import opened Lines
  import opened Frames
  import opened Fields

  const CHANNEL_LIMIT := 16 * 1024 * 1024

  /** The reader's accumulators. */
  datatype Held = Held(data: string, event: string)

  function AddLine(held: Held, line: string): Held {
    var value := Value(line);
    match NameOf(Field(line))
    case DataField => held.(data := AppendLine(held.data, value))
    case EventField => held.(event := value)
    case _ => held
  }

  function Hold(frame: Frame): Held {
    if frame == [] then Held("", "")
    else AddLine(Hold(frame[..|frame| - 1]), frame[|frame| - 1])
  }

  lemma {:induction false} HoldSnoc(frame: Frame, line: string)
    ensures Hold(frame + [line]) == AddLine(Hold(frame), line)
  {
    assert (frame + [line])[..|frame|] == frame;
  }

  /** What the accumulators hold, field by field: all the data lines, and the last event line. */
  lemma {:induction false} HoldByField(frame: Frame)
    ensures Hold(frame) == Held(Data(Values(frame, DataField, true)), Last(Values(frame, EventField, true)))
  {
    if frame == [] {
    } else {
      var n := |frame| - 1;
      HoldByField(frame[..n]);
      assert frame == frame[..n] + [frame[n]];
      ValuesSnoc(frame[..n], frame[n], DataField, true);
      ValuesSnoc(frame[..n], frame[n], EventField, true);
      DataSnoc(Values(frame[..n], DataField, true), Value(frame[n]));
    }
  }

  /** The text handed to the decoder, if this is a message with data. */
  function Payload(held: Held): Option<string> {
    if held.data == "" || (held.event != "" && held.event != "message") then None else Some(held.data)
  }

  function Decoded<M>(payload: Option<string>, decode: string -> Option<M>): FrameResult<M> {
    match payload
    case None => Skip
    case Some(data) =>
      match decode(data)
      case None => Fail
      case Some(m) => Emit(m)
  }

  function Handler<M>(decode: string -> Option<M>): Frame -> FrameResult<M> {
    frame => Decoded(Payload(Hold(frame)), decode)
  }

  /** What an uncancelled subscription delivers of a stream. */
  function Messages<M>(s: string, decode: string -> Option<M>): Outcome<M> {
    Discarding(s, CHANNEL_LIMIT, Handler(decode))
  }

  /** Decoding in order, up to the first failure. */
  function DecodeInOrder<M>(payloads: seq<string>, decode: string -> Option<M>): Outcome<M> {
    if payloads == [] then Outcome([], false)
    else
      var before := DecodeInOrder(payloads[..|payloads| - 1], decode);
      if before.failed then before
      else
        match decode(payloads[|payloads| - 1])
        case None => Outcome(before.events, true)
        case Some(m) => Outcome(before.events + [m], false)
  }

  lemma {:induction false} DecodeSnoc<M>(before: seq<string>, d: string, decode: string -> Option<M>)
    ensures DecodeInOrder(before + [d], decode) ==
            var first := DecodeInOrder(before, decode);
            if first.failed then first
            else
              match decode(d)
              case None => Outcome(first.events, true)
              case Some(m) => Outcome(first.events + [m], false)
  {
    assert (before + [d])[..|before|] == before;
  }

  /** What frames hand to the decoder. */
  function Payloads(frames: seq<Frame>): seq<string> {
    if frames == [] then []
    else
      var before, payload := Payloads(frames[..|frames| - 1]), Payload(Hold(frames[|frames| - 1]));
      if payload.Some? then before + [payload.value] else before
  }

  lemma {:induction false} PayloadsSnoc(frames: seq<Frame>, frame: Frame)
    ensures Payloads(frames + [frame]) ==
            var payload := Payload(Hold(frame));
            if payload.Some? then Payloads(frames) + [payload.value] else Payloads(frames)
  {
    assert (frames + [frame])[..|frames|] == frames;
  }

  lemma {:induction false} DeliverDecodesPayloads<M>(frames: seq<Frame>, decode: string -> Option<M>)
    ensures Deliver(frames, Handler(decode)) == DecodeInOrder(Payloads(frames), decode)
  {
    hide Hold, Payload;
    if frames != [] {
      DeliverDecodesPayloads(frames[..|frames| - 1], decode);
      var before := Payloads(frames[..|frames| - 1]);
      var payload := Payload(Hold(frames[|frames| - 1]));
      if payload.Some? {
        assert (before + [payload.value])[..|before|] == before;
      }
    }
  }

  /** The reader's position: `seen` lines read, no frame of them failed, and these values held. */
  ghost predicate At<M>(seen: seq<string>, held: Held, events: seq<M>, decode: string -> Option<M>) {
    Delivered(seen, events, Handler(decode)) && held == Hold(Group(seen).pending)
  }

  lemma {:induction false} AtStart<M>(decode: string -> Option<M>)
    ensures At([], Held("", ""), [], decode)
  {
  }

  lemma {:induction false} AtLine<M>(seen: seq<string>, line: string, held: Held, events: seq<M>, s: string,
                                     decode: string -> Option<M>)
    requires At(seen, held, events, decode) && seen + [line] <= Split(s, CHANNEL_LIMIT).lines
    ensures line != "" ==> At(seen + [line], AddLine(held, line), events, decode)
    ensures line == "" ==>
              match Decoded(Payload(held), decode)
              case Skip => At(seen + [line], Held("", ""), events, decode)
              case Emit(m) => At(seen + [line], Held("", ""), events + [m], decode)
              case Fail => Messages(s, decode) == Outcome(events, true)
  {
    DeliveredAtLine(seen, line, events, Handler(decode));
    LinesSoFar(seen + [line], s, true, CHANNEL_LIMIT, Handler(decode));
    var pending := Group(seen).pending;
    assert (pending + [line])[..|pending|] == pending;
  }

  /** What was delivered starts what the whole stream delivers, and is all of it once all lines are read. */
  lemma {:induction false} AtSoFar<M>(seen: seq<string>, held: Held, events: seq<M>, s: string,
                                      decode: string -> Option<M>)
    requires At(seen, held, events, decode) && seen <= Split(s, CHANNEL_LIMIT).lines
    ensures events <= Messages(s, decode).events
    ensures seen == Split(s, CHANNEL_LIMIT).lines ==> Messages(s, decode) == Outcome(events, false)
  {
    LinesSoFar(seen, s, true, CHANNEL_LIMIT, Handler(decode));
  }

  lemma {:induction false} AtCancel<M>(seen: seq<string>, held: Held, events: seq<M>, s: string, at: Option<nat>,
                                       decode: string -> Option<M>)
    requires At(seen, held, events, decode) && seen <= Split(s, CHANNEL_LIMIT).lines
    ensures Reached(at, |seen|) ==> DeliveredBy(s, at.value, CHANNEL_LIMIT, Handler(decode)) <= events
  {
    hide Split, DeliveredBy, Delivered, Handler;
    if Reached(at, |seen|) {
      DeliveredEarlier(seen, events, s, at.value, CHANNEL_LIMIT, Handler(decode));
    }
  }

  /** The end of a frame: nothing, a send that cancellation may win over, or a decoding error. */
  method Flush<M>(data: string, event: string, decode: string -> Option<M>, cancelled: bool, cancels: bool)
    returns (sent: seq<M>, err: Option<FlushError>, now: bool)
    requires cancelled ==> cancels
    ensures (cancelled ==> now) && (now ==> cancels)
    ensures match Decoded(Payload(Held(data, event)), decode)
            case Skip => sent == [] && err == None
            case Emit(m) => (sent == [m] && err == None) || (sent == [] && err == Some(Abandoned) && now)
            case Fail => sent == [] && err == Some(Undecodable)
  {
    sent, err, now := [], None, cancelled;
    if data == "" || (event != "" && event != "message") {
      return;
    }
    var msg := decode(data);
    if msg.None? {
      return [], Some(Undecodable), now;
    }
    now := Poll(now, cancels);
    var abandon: bool := *;
    if now && abandon {
      return [], Some(Abandoned), now;
    }
    sent := [msg.value];
  }

  datatype FlushError = Undecodable | Abandoned

  lemma {:induction false} MessagesFail<M>(s: string, decode: string -> Option<M>)
    ensures Messages(s, decode).failed <==> SomeFails(Completed(s, CHANNEL_LIMIT), Handler(decode))
  {
    hide Deliver, Completed, SomeFails, Handler;
    DeliverFailsExactly(Completed(s, CHANNEL_LIMIT), Handler(decode));
  }

  /**
   * What the subscription's goroutine does. The context is cancelled after `cancelAt` lines, if it is;
   * `cancelled` says whether the goroutine saw that. Nothing sent before the cancellation is lost.
   */
  method SubscribeChannel<M>(body: string, broken: bool, decode: string -> Option<M>, cancelAt: Option<nat>)
    returns (events: seq<M>, err: Option<StreamError>, cancelled: bool)
    ensures cancelled ==> cancelAt.Some? && DeliveredBy(body, cancelAt.value, CHANNEL_LIMIT, Handler(decode)) <= events
    ensures events <= Messages(body, decode).events
    ensures cancelled ==> err == None
    ensures !cancelled ==>
              && events == Messages(body, decode).events
              && err == if SomeFails(Completed(body, CHANNEL_LIMIT), Handler(decode)) then Some(DecodeFailed)
                        else if HasLongRun(body, 16777216) then Some(LineTooLong)
                        else if broken then Some(BodyBroken)
                        else None
  {
    hide DeliveredBy, At, Messages, Split, SomeFails, HasLongRun, Handler, Completed;
    MessagesFail(body, decode);
    TooLongExactly(body, CHANNEL_LIMIT);
    events, err, cancelled := [], None, false;
    var read := 0;
    var scanner := new Scanner(body, CHANNEL_LIMIT);
    var data, event := "", "";
    ghost var seen: seq<string>, all := [], Split(body, CHANNEL_LIMIT);
    AtStart(decode);
    SoFarStart(body, CHANNEL_LIMIT);
    while true
      invariant scanner.Valid() && !scanner.tooLong && scanner.limit == CHANNEL_LIMIT
      invariant read == |seen| && (cancelled ==> Reached(cancelAt, read))
      invariant SoFar(seen, scanner.Remaining(), CHANNEL_LIMIT, all)
      invariant At(seen, Held(data, event), events, decode)
      decreases |scanner.Remaining()|
    {
      AtCancel(seen, Held(data, event), events, body, cancelAt, decode);
      AtSoFar(seen, Held(data, event), events, body, decode);
      ghost var remaining := scanner.Remaining();
      var ok, line := scanner.Scan();
      SoFarStep(seen, remaining, CHANNEL_LIMIT, all, ok, line, scanner.Remaining(), scanner.tooLong);
      if !ok {
        break;
      }
      AtLine(seen, line, Held(data, event), events, body, decode);
      seen := seen + [line];
      if line == "" {
        var sent, failed;
        sent, failed, cancelled := Flush(data, event, decode, cancelled, Reached(cancelAt, read));
        if failed.Some? {
          cancelled := Poll(cancelled, Reached(cancelAt, read));
          if !cancelled {
            err := Some(DecodeFailed);
          }
          return;
        }
        assert events + [] == events;
        events := events + sent;
        data, event := "", "";
      } else {
        var value := Value(line);
        match NameOf(Field(line)) {
          case EventField => event := value;
          case DataField => data := AppendLine(data, value);
          case _ =>
        }
      }
      read := read + 1;
    }
    cancelled := Poll(cancelled, Reached(cancelAt, read));
    if (scanner.tooLong || broken) && !cancelled {
      err := Some(if scanner.tooLong then LineTooLong else BodyBroken);
    }
  }
}
