/** The AI chat stream reader: a cancelled send leaves the data of its frame in the accumulator. */
module AIReader {
  import opened Text
  import opened Lines
  import opened Frames
  import opened Fields

  const AI_LIMIT := 1024 * 1024

  function AddLine(data: string, line: string): string {
    if "data:" <= line then AppendLine(data, TrimSpace(line[5..])) else data
  }

  function Hold(frame: Frame): string {
    if frame == [] then ""
    else AddLine(Hold(frame[..|frame| - 1]), frame[|frame| - 1])
  }

  function Result<E>(data: string, decode: string -> Option<E>): FrameResult<E> {
    if data == "" then Skip
    else
      match decode(data)
      case None => Fail
      case Some(e) => Emit(e)
  }

  function Handler<E>(decode: string -> Option<E>): Frame -> FrameResult<E> {
    frame => Result(Hold(frame), decode)
  }

  /** What an uncancelled chat stream delivers. */
  function Events<E>(s: string, broken: bool, decode: string -> Option<E>): Outcome<E> {
    Flushing(s, broken, AI_LIMIT, Handler(decode))
  }

  /** The events of all the stream's frames taken one by one, the unfinished one included. */
  function FrameEvents<E>(s: string, decode: string -> Option<E>): seq<E> {
    var g := Group(Split(s, AI_LIMIT).lines);
    EventsOf(g.complete + [g.pending], Handler(decode))
  }

  /** A decoder of the first value of its input: what follows a value on later lines does not matter. */
  ghost predicate DecodesFirstValue<E>(decode: string -> Option<E>) {
    forall d: string, more: string :: decode(d).Some? ==> decode(d + "\n" + more) == decode(d)
  }

  /** `a` is `b` with some elements left out. */
  ghost predicate Subsequence<E>(a: seq<E>, b: seq<E>) {
    a == [] ||
    (b != [] && (Subsequence(a, b[..|b| - 1]) ||
                 (a[|a| - 1] == b[|b| - 1] && Subsequence(a[..|a| - 1], b[..|b| - 1]))))
  }

  lemma {:induction false} SubsequenceSnoc<E>(a: seq<E>, b: seq<E>, e: E)
    requires Subsequence(a, b)
    ensures Subsequence(a, b + [e]) && Subsequence(a + [e], b + [e])
  {
    assert (b + [e])[..|b|] == b && (a + [e])[..|a|] == a;
  }

  lemma {:induction false} SubsequenceAppend<E>(a: seq<E>, b: seq<E>, more: seq<E>)
    requires Subsequence(a, b)
    ensures Subsequence(a, b + more)
  {
    if more == [] {
      assert b + more == b;
    } else {
      var n := |more| - 1;
      SubsequenceAppend(a, b, more[..n]);
      SubsequenceSnoc(a, b + more[..n], more[n]);
      assert b + more[..n] + [more[n]] == b + more;
    }
  }

  lemma {:induction false} SubsequenceWithoutLast<E>(a: seq<E>, e: E, b: seq<E>)
    requires Subsequence(a + [e], b)
    ensures Subsequence(a, b)
  {
    assert (a + [e])[..|a|] == a;
    var n := |b| - 1;
    assert b == b[..n] + [b[n]];
    if Subsequence(a + [e], b[..n]) {
      SubsequenceWithoutLast(a, e, b[..n]);
    }
    SubsequenceSnoc(a, b[..n], b[n]);
  }

  lemma {:induction false} EventsOfPrefix<E>(a: seq<Frame>, b: seq<Frame>, h: Frame -> FrameResult<E>)
    requires a <= b
    ensures EventsOf(a, h) <= EventsOf(b, h)
  {
    if a != b {
      assert a <= b[..|b| - 1];
      EventsOfPrefix(a, b[..|b| - 1], h);
    }
  }

  /**
   * The reader's position. As long as nothing was cancelled, the events are exactly the frames' so far.
   * Afterwards they are a subsequence of them, and when an event was abandoned (`stale`), the data
   * still decodes to that event, which may still be sent in its turn.
   */
  ghost predicate At<E>(seen: seq<string>, data: string, events: seq<E>, cancelled: bool, stale: Option<E>,
                        decode: string -> Option<E>) {
    var g, h := Group(seen), Handler(decode);
    && (!cancelled ==> Delivered(seen, events, h))
    && match stale
       case None => data == Hold(g.pending) && Subsequence(events, EventsOf(g.complete, h))
       case Some(e) =>
         && cancelled && data != "" && decode(data) == Some(e)
         && Subsequence(events + [e], EventsOf(g.complete, h))
  }

  lemma {:induction false} AtStart<E>(decode: string -> Option<E>)
    ensures At([], "", [], false, None, decode)
  {
  }

  lemma {:induction false} AtCancelled<E>(seen: seq<string>, data: string, events: seq<E>, cancelled: bool, now: bool,
                                          stale: Option<E>, decode: string -> Option<E>)
    requires At(seen, data, events, cancelled, stale, decode) && (cancelled ==> now)
    ensures At(seen, data, events, now, stale, decode)
  {
  }

  lemma {:induction false} AtFieldLine<E>(seen: seq<string>, line: string, data: string, events: seq<E>,
                                          cancelled: bool, stale: Option<E>, decode: string -> Option<E>)
    requires At(seen, data, events, cancelled, stale, decode) && line != "" && DecodesFirstValue(decode)
    ensures At(seen + [line], AddLine(data, line), events, cancelled, stale, decode)
  {
    GroupSnoc(seen, line);
    var pending := Group(seen).pending;
    assert (pending + [line])[..|pending|] == pending;
  }

  /** A blank line adds the event of the frame it completes, if it has one. */
  lemma {:induction false} BlankExtends<E>(seen: seq<string>, events: seq<E>, h: Frame -> FrameResult<E>)
    requires Subsequence(events, EventsOf(Group(seen).complete, h))
    ensures Subsequence(events, EventsOf(Group(seen + [""]).complete, h))
    ensures h(Group(seen).pending).Emit? ==>
              Subsequence(events + [h(Group(seen).pending).event], EventsOf(Group(seen + [""]).complete, h))
  {
    var g := Group(seen);
    GroupSnoc(seen, "");
    DeliverSnoc(g.complete, g.pending, h);
    var all := EventsOf(g.complete, h);
    assert all + [] == all;
    if h(g.pending).Emit? {
      SubsequenceSnoc(events, all, h(g.pending).event);
    }
  }

  /**
   * A blank line. Without an event, or with the event sent, the data is dropped; an abandoned send
   * leaves the data where it is.
   */
  lemma {:induction false} AtBlankLine<E>(seen: seq<string>, data: string, events: seq<E>, cancelled: bool,
                                          stale: Option<E>, decode: string -> Option<E>)
    requires At(seen, data, events, cancelled, stale, decode)
    ensures match Result(data, decode)
            case Skip => At(seen + [""], "", events, cancelled, None, decode)
            case Emit(e) =>
              && At(seen + [""], "", events + [e], cancelled, None, decode)
              && (cancelled ==> At(seen + [""], data, events, cancelled, Some(e), decode))
            case Fail => !cancelled ==> Deliver(Group(seen + [""]).complete, Handler(decode)) == Outcome(events, true)
  {
    var h := Handler(decode);
    assert stale.None? ==> h(Group(seen).pending) == Result(data, decode);
    if !cancelled {
      DeliveredAtLine(seen, "", events, h);
    }
    GroupSnoc(seen, "");
    match stale {
      case None => BlankExtends(seen, events, h);
      case Some(e) => BlankExtends(seen, events + [e], h);
    }
  }

  /** Comments and event lines are not data lines. */
  lemma {:induction false} OtherPrefix(line: string)
    ensures ":" <= line || "event:" <= line ==> !("data:" <= line)
  {
    assert "data:"[0] == 'd' && ":"[0] == ':' && "event:"[0] == 'e';
  }

  /** What was sent while `seen` lines were read, against what the whole stream has. */
  lemma {:induction false} AtSoFar<E>(seen: seq<string>, data: string, events: seq<E>, cancelled: bool,
                                      stale: Option<E>, s: string, broken: bool, decode: string -> Option<E>)
    requires At(seen, data, events, cancelled, stale, decode) && seen <= Split(s, AI_LIMIT).lines
    ensures Subsequence(events, FrameEvents(s, decode))
    ensures !cancelled ==> events <= Events(s, broken, decode).events
    ensures !cancelled && seen == Split(s, AI_LIMIT).lines && (Split(s, AI_LIMIT).tooLong || broken) ==>
              Events(s, broken, decode) == Outcome(events, false)
  {
    hide Subsequence, Split, Hold, EventsOf;
    var lines, h := Split(s, AI_LIMIT).lines, Handler(decode);
    LinesSoFar(seen, s, broken, AI_LIMIT, h);
    GroupPrefix(seen, lines);
    var g, all := Group(seen), Group(lines);
    if stale.Some? {
      SubsequenceWithoutLast(events, stale.value, EventsOf(g.complete, h));
    }
    SubsequenceOfMore(events, g.complete, all.complete + [all.pending], h);
  }

  lemma {:induction false} SubsequenceOfMore<E>(events: seq<E>, a: seq<Frame>, b: seq<Frame>,
                                                h: Frame -> FrameResult<E>)
    requires Subsequence(events, EventsOf(a, h)) && a <= b
    ensures Subsequence(events, EventsOf(b, h))
  {
    hide Subsequence, EventsOf;
    EventsOfPrefix(a, b, h);
    var mine, whole := EventsOf(a, h), EventsOf(b, h);
    SubsequenceAppend(events, mine, whole[|mine|..]);
    assert mine + whole[|mine|..] == whole;
  }

  /** The flush after the last line. */
  lemma {:induction false} AtEnd<E>(data: string, events: seq<E>, cancelled: bool, stale: Option<E>, s: string,
                                    broken: bool, decode: string -> Option<E>)
    requires At(Split(s, AI_LIMIT).lines, data, events, cancelled, stale, decode)
    ensures Result(data, decode).Emit? ==>
              Subsequence(events + [Result(data, decode).event], FrameEvents(s, decode))
    ensures !cancelled && !Split(s, AI_LIMIT).tooLong && !broken ==>
              match Result(data, decode)
              case Skip => Events(s, broken, decode) == Outcome(events, false)
              case Emit(e) => Events(s, broken, decode) == Outcome(events + [e], false)
              case Fail => Events(s, broken, decode) == Outcome(events, true)
  {
    var lines := Split(s, AI_LIMIT).lines;
    AtBlankLine(lines, data, events, cancelled, stale, decode);
    GroupSnoc(lines, "");
  }

  /** What a failed frame means when nothing was cancelled. */
  lemma {:induction false} AtFailure<E>(seen: seq<string>, data: string, events: seq<E>, stale: Option<E>, s: string,
                                        broken: bool, decode: string -> Option<E>)
    requires At(seen, data, events, false, stale, decode) && seen + [""] <= Split(s, AI_LIMIT).lines
    requires Result(data, decode).Fail?
    ensures Events(s, broken, decode) == Outcome(events, true)
  {
    AtBlankLine(seen, data, events, false, stale, decode);
    LinesSoFar(seen + [""], s, broken, AI_LIMIT, Handler(decode));
  }

  lemma {:induction false} AtCancel<E>(seen: seq<string>, data: string, events: seq<E>, cancelled: bool,
                                       stale: Option<E>, s: string, at: Option<nat>, decode: string -> Option<E>)
    requires At(seen, data, events, cancelled, stale, decode) && seen <= Split(s, AI_LIMIT).lines
    ensures !cancelled && Reached(at, |seen|) ==> DeliveredBy(s, at.value, AI_LIMIT, Handler(decode)) <= events
  {
    hide Split, DeliveredBy, Delivered, Handler, EventsOf, Subsequence;
    if !cancelled && Reached(at, |seen|) {
      DeliveredEarlier(seen, events, s, at.value, AI_LIMIT, Handler(decode));
    }
  }

  /** One flush: the data is dropped only after a send that cancellation did not win over. */
  method Flush<E>(data: string, decode: string -> Option<E>, cancelled: bool, cancels: bool)
    returns (sent: seq<E>, kept: string, failed: bool, now: bool)
    requires cancelled ==> cancels
    ensures (cancelled ==> now) && (now ==> cancels)
    ensures match Result(data, decode)
            case Skip => sent == [] && kept == "" && !failed
            case Emit(e) => !failed && ((sent == [e] && kept == "") || (sent == [] && kept == data && now))
            case Fail => sent == [] && failed
  {
    sent, kept, failed, now := [], data, false, cancelled;
    if data == "" {
      return;
    }
    var ev := decode(data);
    if ev.None? {
      return [], data, true, now;
    }
    now := Poll(now, cancels);
    var abandon: bool := *;
    if now && abandon {
      return;
    }
    sent, kept := [ev.value], "";
  }

  lemma {:induction false} EventsFail<E>(s: string, broken: bool, decode: string -> Option<E>)
    ensures Events(s, broken, decode).failed <==> SomeFails(Flushed(s, broken, AI_LIMIT), Handler(decode))
  {
    hide Deliver, Flushed, SomeFails, Handler;
    DeliverFailsExactly(Flushed(s, broken, AI_LIMIT), Handler(decode));
  }

  method AIChatStream<E>(body: string, broken: bool, decode: string -> Option<E>, cancelAt: Option<nat>)
    returns (events: seq<E>, err: Option<StreamError>, cancelled: bool)
    requires DecodesFirstValue(decode)
    ensures cancelled ==> cancelAt.Some? && DeliveredBy(body, cancelAt.value, AI_LIMIT, Handler(decode)) <= events
    ensures Subsequence(events, FrameEvents(body, decode))
    ensures !cancelled ==>
              && events == Events(body, broken, decode).events
              && err == if SomeFails(Flushed(body, broken, AI_LIMIT), Handler(decode)) then Some(DecodeFailed)
                        else if HasLongRun(body, 1048576) then Some(LineTooLong)
                        else if broken then Some(BodyBroken)
                        else None
    ensures cancelled ==> err == None || err == Some(DecodeFailed)
  {
    hide DeliveredBy, At, Events, FrameEvents, Split, Subsequence, SomeFails, HasLongRun, Handler, Flushed;
    EventsFail(body, broken, decode);
    TooLongExactly(body, AI_LIMIT);
    events, err, cancelled := [], None, false;
    var read := 0;
    var scanner := new Scanner(body, AI_LIMIT);
    var data := "";
    ghost var seen: seq<string>, all, stale: Option<E> := [], Split(body, AI_LIMIT), None;
    AtStart(decode);
    SoFarStart(body, AI_LIMIT);
    while true
      invariant scanner.Valid() && !scanner.tooLong && scanner.limit == AI_LIMIT
      invariant read == |seen| && (cancelled ==> Reached(cancelAt, read))
      invariant cancelled ==> DeliveredBy(body, cancelAt.value, AI_LIMIT, Handler(decode)) <= events
      invariant SoFar(seen, scanner.Remaining(), AI_LIMIT, all)
      invariant At(seen, data, events, cancelled, stale, decode) && err == None
      decreases |scanner.Remaining()|
    {
      AtCancel(seen, data, events, cancelled, stale, body, cancelAt, decode);
      AtSoFar(seen, data, events, cancelled, stale, body, broken, decode);
      ghost var remaining := scanner.Remaining();
      var ok, line := scanner.Scan();
      SoFarStep(seen, remaining, AI_LIMIT, all, ok, line, scanner.Remaining(), scanner.tooLong);
      if !ok {
        break;
      }
      if line == "" {
        if !cancelled && Result(data, decode).Fail? {
          AtFailure(seen, data, events, stale, body, broken, decode);
        }
        var sent, kept, failed, now := Flush(data, decode, cancelled, Reached(cancelAt, read));
        if failed {
          cancelled, err := now, Some(DecodeFailed);
          return;
        }
        AtCancelled(seen, data, events, cancelled, now, stale, decode);
        AtBlankLine(seen, data, events, now, stale, decode);
        stale := if sent == [] && data != "" then decode(data) else None;
        assert events + [] == events;
        cancelled, data, events := now, kept, events + sent;
      } else if !(":" <= line) && !("event:" <= line) && "data:" <= line {
        AtFieldLine(seen, line, data, events, cancelled, stale, decode);
        data := AppendLine(data, TrimSpace(line[5..]));
      } else {
        OtherPrefix(line);
        AtFieldLine(seen, line, data, events, cancelled, stale, decode);
      }
      seen, read := seen + [line], read + 1;
    }
    ghost var before := cancelled;
    cancelled := Poll(cancelled, Reached(cancelAt, read));
    if (scanner.tooLong || broken) && !cancelled {
      err := Some(if scanner.tooLong then LineTooLong else BodyBroken);
      return;
    }
    AtCancelled(seen, data, events, before, cancelled, stale, decode);
    AtEnd(data, events, cancelled, stale, body, broken, decode);
    var sent, kept, failed;
    sent, kept, failed, cancelled := Flush(data, decode, cancelled, Reached(cancelAt, read));
    assert events + [] == events;
    events := events + sent;
    if failed {
      cancelled := Poll(cancelled, Reached(cancelAt, read));
      if !cancelled {
        err := Some(DecodeFailed);
      }
    }
  }
}
