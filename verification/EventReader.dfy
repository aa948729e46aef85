/** The daemon event stream reader: one event per frame, and the last frame flushed at a clean end. */
module EventReader {
  import opened Text
  import opened Numbers
  import opened Lines
  import opened Frames
  import opened Fields
  import opened Truncation

  const EVENT_LIMIT := 1024 * 1024

  datatype StreamEvent = StreamEvent(sequence: int, kind: string, scope: string, sessionId: string, payloadJson: string)
  datatype EventPayload = EventPayload(scope: string, sessionId: string, payloadJson: string)

  /** The reader's accumulators: the event under construction and its data. */
  datatype Held = Held(sequence: int, kind: string, data: string)

  const NOTHING := Held(0, "", "")

  function AddLine(held: Held, line: string): Held {
    if !HasColon(line) then held
    else
      var value := Value(line);
      match NameOf(Field(line))
      case IdField =>
        (match ParseInt(value)
         case Some(id) => held.(sequence := id)
         case None => held)
      case EventField => held.(kind := value)
      case DataField => held.(data := AppendLine(held.data, value))
      case OtherField => held
  }

  function Hold(frame: Frame): Held {
    if frame == [] then NOTHING
    else AddLine(Hold(frame[..|frame| - 1]), frame[|frame| - 1])
  }

  /** The last of some ids that is a number, 0 when none is. */
  function LastNumber(ids: seq<string>): int {
    if ids == [] then 0
    else
      match ParseInt(ids[|ids| - 1])
      case Some(id) => id
      case None => LastNumber(ids[..|ids| - 1])
  }

  /** What the accumulators hold depends on the lines of their own frame only, field by field. */
  lemma {:induction false} HoldByField(frame: Frame)
    ensures Hold(frame) == Held(LastNumber(Values(frame, IdField, false)),
                                Last(Values(frame, EventField, false)),
                                Data(Values(frame, DataField, false)))
  {
    if frame == [] {
    } else {
      var n := |frame| - 1;
      var before, line := frame[..n], frame[n];
      HoldByField(before);
      assert frame == before + [line];
      ValuesSnoc(before, line, IdField, false);
      ValuesSnoc(before, line, EventField, false);
      ValuesSnoc(before, line, DataField, false);
      DataSnoc(Values(before, DataField, false), Value(line));
      NumberSnoc(Values(before, IdField, false), Value(line));
    }
  }

  lemma {:induction false} NumberSnoc(ids: seq<string>, id: string)
    ensures LastNumber(ids + [id]) == match ParseInt(id) case Some(n) => n case None => LastNumber(ids)
  {
    assert (ids + [id])[..|ids|] == ids;
  }

  /** The event of a frame: none for an empty one, no payload without data, and no decodable data no event. */
  function Result(held: Held, decode: string -> Option<EventPayload>): FrameResult<StreamEvent> {
    if held == NOTHING then Skip
    else if held.data == "" then Emit(StreamEvent(held.sequence, held.kind, "", "", ""))
    else
      match decode(held.data)
      case None => Fail
      case Some(p) => Emit(StreamEvent(held.sequence, held.kind, p.scope, p.sessionId, p.payloadJson))
  }

  function Handler(decode: string -> Option<EventPayload>): Frame -> FrameResult<StreamEvent> {
    frame => Result(Hold(frame), decode)
  }

  /**
   * The event of a frame, from its fields: the last numeric id, the last event line and the three parts
   * of its decoded data, each in its own place; no data, no such parts; nothing at all, no event.
   */
  lemma {:induction false} FrameEvent(frame: Frame, decode: string -> Option<EventPayload>)
    ensures var number := LastNumber(Values(frame, IdField, false));
            var kind, data := Last(Values(frame, EventField, false)), Data(Values(frame, DataField, false));
            var result := Handler(decode)(frame);
            if data != "" then
              match decode(data)
              case Some(EventPayload(scope, session, json)) =>
                result == Emit(StreamEvent(number, kind, scope, session, json))
              case None => result == Fail
            else if number != 0 || kind != "" then result == Emit(StreamEvent(number, kind, "", "", ""))
            else result == Skip
  {
    hide Hold, Values, Data, LastNumber, Last;
    HoldByField(frame);
  }

  /** The number of some ids: that of the last one that is a number, and 0 without any. */
  lemma {:induction false} LastNumberIs(ids: seq<string>, i: nat)
    requires i <= |ids| && forall j :: i <= j < |ids| ==> ParseInt(ids[j]) == None
    ensures i == 0 ==> LastNumber(ids) == 0
    ensures i > 0 && ParseInt(ids[i - 1]).Some? ==> LastNumber(ids) == ParseInt(ids[i - 1]).value
  {
    hide ParseInt;
    if i < |ids| {
      LastNumberIs(ids[..|ids| - 1], i);
    }
  }

  /** What an uncancelled event stream delivers. */
  function Events(s: string, broken: bool, decode: string -> Option<EventPayload>): Outcome<StreamEvent> {
    Flushing(s, broken, EVENT_LIMIT, Handler(decode))
  }

  /** Of any cut of any stream: a prefix of its events and at most one more, from the frame left open. */
  lemma {:induction false} EventsOfACut(s: string, k: nat, broken: bool, cutBroken: bool,
                                        decode: string -> Option<EventPayload>)
    requires k <= |s|
    ensures AtMostOneBeyond(Events(s[..k], cutBroken, decode).events, Events(s, broken, decode).events,
                            Result(Hold(OpenFrame(s[..k], EVENT_LIMIT)), decode))
  {
    hide Flushing, OpenFrame, AtMostOneBeyond;
    FlushBound(s, k, broken, cutBroken, EVENT_LIMIT, Handler(decode));
  }

  ghost predicate At(seen: seq<string>, held: Held, events: seq<StreamEvent>, decode: string -> Option<EventPayload>) {
    Delivered(seen, events, Handler(decode)) && held == Hold(Group(seen).pending)
  }

  lemma {:induction false} AtStart(decode: string -> Option<EventPayload>)
    ensures At([], NOTHING, [], decode)
  {
  }

  lemma {:induction false} AtLine(seen: seq<string>, line: string, held: Held, events: seq<StreamEvent>, s: string,
                                  broken: bool, decode: string -> Option<EventPayload>)
    requires At(seen, held, events, decode) && seen + [line] <= Split(s, EVENT_LIMIT).lines
    ensures line != "" ==> At(seen + [line], AddLine(held, line), events, decode)
    ensures line == "" ==>
              match Result(held, decode)
              case Skip => At(seen + [line], NOTHING, events, decode)
              case Emit(e) => At(seen + [line], NOTHING, events + [e], decode)
              case Fail => Events(s, broken, decode) == Outcome(events, true)
  {
    DeliveredAtLine(seen, line, events, Handler(decode));
    LinesSoFar(seen + [line], s, broken, EVENT_LIMIT, Handler(decode));
    var pending := Group(seen).pending;
    assert (pending + [line])[..|pending|] == pending;
  }

  lemma {:induction false} AtSoFar(seen: seq<string>, held: Held, events: seq<StreamEvent>, s: string, broken: bool,
                                   decode: string -> Option<EventPayload>)
    requires At(seen, held, events, decode) && seen <= Split(s, EVENT_LIMIT).lines
    ensures events <= Events(s, broken, decode).events
    ensures seen == Split(s, EVENT_LIMIT).lines ==>
              if Split(s, EVENT_LIMIT).tooLong || broken then Events(s, broken, decode) == Outcome(events, false)
              else
                match Result(held, decode)
                case Skip => Events(s, broken, decode) == Outcome(events, false)
                case Emit(e) => Events(s, broken, decode) == Outcome(events + [e], false)
                case Fail => Events(s, broken, decode) == Outcome(events, true)
  {
    LinesSoFar(seen, s, broken, EVENT_LIMIT, Handler(decode));
    DeliverSnoc(Group(seen).complete, Group(seen).pending, Handler(decode));
  }

  lemma {:induction false} AtCancel(seen: seq<string>, held: Held, events: seq<StreamEvent>, s: string, at: Option<nat>,
                                    decode: string -> Option<EventPayload>)
    requires At(seen, held, events, decode) && seen <= Split(s, EVENT_LIMIT).lines
    ensures Reached(at, |seen|) ==> DeliveredBy(s, at.value, EVENT_LIMIT, Handler(decode)) <= events
  {
    hide Split, DeliveredBy, Delivered, Handler;
    if Reached(at, |seen|) {
      DeliveredEarlier(seen, events, s, at.value, EVENT_LIMIT, Handler(decode));
    }
  }

  /** One flush: nothing, a send that cancellation may win over, or a decoding error. */
  method Flush(held: Held, decode: string -> Option<EventPayload>, cancelled: bool, cancels: bool)
    returns (sent: seq<StreamEvent>, err: Option<StreamError>, now: bool)
    requires cancelled ==> cancels
    ensures (cancelled ==> now) && (now ==> cancels)
    ensures match Result(held, decode)
            case Skip => sent == [] && err == None
            case Emit(e) => (sent == [e] && err == None) || (sent == [] && err == Some(Cancelled) && now)
            case Fail => sent == [] && err == Some(DecodeFailed)
  {
    sent, err, now := [], None, cancelled;
    if held.sequence == 0 && held.kind == "" && held.data == "" {
      return;
    }
    var ev := StreamEvent(held.sequence, held.kind, "", "", "");
    if held.data != "" {
      var payload := decode(held.data);
      if payload.None? {
        return [], Some(DecodeFailed), now;
      }
      ev := ev.(scope := payload.value.scope, sessionId := payload.value.sessionId,
      payloadJson := payload.value.payloadJson);
    }
    now := Poll(now, cancels);
    var abandon: bool := *;
    if now && abandon {
      return [], Some(Cancelled), now;
    }
    sent := [ev];
  }

  lemma {:induction false} EventsFail(s: string, broken: bool, decode: string -> Option<EventPayload>)
    ensures Events(s, broken, decode).failed <==> SomeFails(Flushed(s, broken, EVENT_LIMIT), Handler(decode))
  {
    hide Deliver, Flushed, SomeFails, Handler;
    DeliverFailsExactly(Flushed(s, broken, EVENT_LIMIT), Handler(decode));
  }

  method StreamEvents(body: string, broken: bool, decode: string -> Option<EventPayload>, cancelAt: Option<nat>)
    returns (events: seq<StreamEvent>, err: Option<StreamError>, cancelled: bool)
    ensures cancelled ==> cancelAt.Some? && DeliveredBy(body, cancelAt.value, EVENT_LIMIT, Handler(decode)) <= events
    ensures events <= Events(body, broken, decode).events
    ensures var fails := SomeFails(Flushed(body, broken, EVENT_LIMIT), Handler(decode));
            && (cancelled ==> err == None || err == Some(Cancelled) || (fails && err == Some(DecodeFailed)))
            && (!cancelled ==>
                  && events == Events(body, broken, decode).events
                  && err == if fails then Some(DecodeFailed)
                            else if HasLongRun(body, 1048576) then Some(LineTooLong)
                            else if broken then Some(BodyBroken)
                            else None)
  {
    hide DeliveredBy, At, Events, Split, SomeFails, HasLongRun, Handler, Flushed;
    EventsFail(body, broken, decode);
    TooLongExactly(body, EVENT_LIMIT);
    events, err, cancelled := [], None, false;
    var read := 0;
    var scanner := new Scanner(body, EVENT_LIMIT);
    var ev, data := StreamEvent(0, "", "", "", ""), "";
    ghost var seen: seq<string>, all := [], Split(body, EVENT_LIMIT);
    AtStart(decode);
    SoFarStart(body, EVENT_LIMIT);
    while true
      invariant scanner.Valid() && !scanner.tooLong && scanner.limit == EVENT_LIMIT
      invariant read == |seen| && (cancelled ==> Reached(cancelAt, read))
      invariant SoFar(seen, scanner.Remaining(), EVENT_LIMIT, all)
      invariant At(seen, Held(ev.sequence, ev.kind, data), events, decode) && err == None
      decreases |scanner.Remaining()|
    {
      AtCancel(seen, Held(ev.sequence, ev.kind, data), events, body, cancelAt, decode);
      AtSoFar(seen, Held(ev.sequence, ev.kind, data), events, body, broken, decode);
      ghost var remaining := scanner.Remaining();
      var ok, line := scanner.Scan();
      SoFarStep(seen, remaining, EVENT_LIMIT, all, ok, line, scanner.Remaining(), scanner.tooLong);
      if !ok {
        break;
      }
      AtLine(seen, line, Held(ev.sequence, ev.kind, data), events, body, broken, decode);
      seen := seen + [line];
      if line == "" {
        var sent;
        sent, err, cancelled := Flush(Held(ev.sequence, ev.kind, data), decode, cancelled, Reached(cancelAt, read));
        if err.Some? {
          return;
        }
        assert events + [] == events;
        events := events + sent;
        ev, data := StreamEvent(0, "", "", "", ""), "";
      } else if HasColon(line) {
        var value := Value(line);
        match NameOf(Field(line)) {
          case IdField =>
            var id := ParseInt(value);
            if id.Some? {
              ev := ev.(sequence := id.value);
            }
          case EventField => ev := ev.(kind := value);
          case DataField => data := AppendLine(data, value);
          case OtherField =>
        }
      }
      read := read + 1;
    }
    if scanner.tooLong || broken {
      cancelled := Poll(cancelled, Reached(cancelAt, read));
      err := Some(if cancelled then Cancelled else if scanner.tooLong then LineTooLong else BodyBroken);
      return;
    }
    var sent, flushErr;
    sent, flushErr, cancelled := Flush(Held(ev.sequence, ev.kind, data), decode, cancelled, Reached(cancelAt, read));
    assert events + [] == events;
    events := events + sent;
    if flushErr.Some? {
      cancelled := Poll(cancelled, Reached(cancelAt, read));
      if !cancelled {
        err := flushErr;
      }
    }
  }
}
