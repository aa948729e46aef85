/** The mailbox subscription reader: no frames, every decodable data line is an event of its own. */
module MessagingReader {
  import opened Text
  import opened Lines
  import opened Frames
  import opened Fields
  import opened Truncation
  import Channel = ChannelReader

  const DEFAULT_LIMIT := 64 * 1024

  predicate IsDataLine(line: string) {
    "data: " <= line
  }

  /** The events of some lines; comments, other fields and undecodable data give none. */
  function LineEvents<E>(lines: seq<string>, decode: string -> Option<E>): seq<E> {
    if lines == [] then []
    else
      var before, line := LineEvents(lines[..|lines| - 1], decode), lines[|lines| - 1];
      if IsDataLine(line) && decode(line[6..]).Some? then before + [decode(line[6..]).value] else before
  }

  /** What an uncancelled subscription delivers. */
  function Events<E>(s: string, limit: nat, decode: string -> Option<E>): seq<E> {
    LineEvents(Split(s, limit).lines, decode)
  }

  lemma {:induction false} LineEventsSnoc<E>(lines: seq<string>, line: string, decode: string -> Option<E>)
    ensures LineEvents(lines + [line], decode) ==
            if IsDataLine(line) && decode(line[6..]).Some? then LineEvents(lines, decode) + [decode(line[6..]).value]
            else LineEvents(lines, decode)
  {
    assert (lines + [line])[..|lines|] == lines;
  }

  lemma {:induction false} LineEventsPrefix<E>(a: seq<string>, b: seq<string>, decode: string -> Option<E>)
    requires a <= b
    ensures LineEvents(a, decode) <= LineEvents(b, decode)
  {
    if a != b {
      assert a <= b[..|b| - 1];
      LineEventsPrefix(a, b[..|b| - 1], decode);
    }
  }

  lemma {:induction false} NoLinesNoEvents<E>(decode: string -> Option<E>)
    ensures LineEvents([], decode) == []
  {
  }

  /** The events of the first `n` lines of a stream. */
  function EventsBy<E>(s: string, n: nat, limit: nat, decode: string -> Option<E>): seq<E> {
    var lines := Split(s, limit).lines;
    LineEvents(if n <= |lines| then lines[..n] else lines, decode)
  }

  lemma {:induction false} EventsEarlier<E>(seen: seq<string>, s: string, at: Option<nat>, decode: string -> Option<E>)
    requires seen <= Split(s, DEFAULT_LIMIT).lines
    ensures Reached(at, |seen|) ==> EventsBy(s, at.value, DEFAULT_LIMIT, decode) <= LineEvents(seen, decode)
  {
    hide Split, LineEvents;
    if Reached(at, |seen|) {
      var first := Split(s, DEFAULT_LIMIT).lines[..at.value];
      assert first == seen[..at.value] <= seen;
      LineEventsPrefix(first, seen, decode);
    }
  }

  /** The context is cancelled after `cancelAt` lines, if it is; nothing sent before that is lost. */
  method Subscribe<E>(body: string, decode: string -> Option<E>, cancelAt: Option<nat>)
    returns (events: seq<E>, cancelled: bool)
    ensures cancelled ==> cancelAt.Some? && EventsBy(body, cancelAt.value, 65536, decode) <= events
    ensures events <= Events(body, 65536, decode)
    ensures !cancelled ==> events == Events(body, 65536, decode)
  {
    hide Split, LineEvents, EventsBy;
    events, cancelled := [], false;
    var read := 0;
    var scanner := new Scanner(body, DEFAULT_LIMIT);
    ghost var seen: seq<string>, all := [], Split(body, DEFAULT_LIMIT);
    SoFarStart(body, DEFAULT_LIMIT);
    NoLinesNoEvents(decode);
    while true
      invariant scanner.Valid() && !scanner.tooLong && scanner.limit == DEFAULT_LIMIT
      invariant read == |seen| && (cancelled ==> Reached(cancelAt, read))
      invariant cancelled ==> EventsBy(body, cancelAt.value, 65536, decode) <= events
      invariant SoFar(seen, scanner.Remaining(), DEFAULT_LIMIT, all)
      invariant events == LineEvents(seen, decode)
      decreases |scanner.Remaining()|
    {
      ghost var remaining := scanner.Remaining();
      var ok, line := scanner.Scan();
      SoFarStep(seen, remaining, DEFAULT_LIMIT, all, ok, line, scanner.Remaining(), scanner.tooLong);
      if !ok {
        break;
      }
      LineEventsPrefix(seen, all.lines, decode);
      LineEventsSnoc(seen, line, decode);
      EventsEarlier(seen, body, cancelAt, decode);
      seen, read := seen + [line], read + 1;
      if !("data: " <= line) {
        continue;
      }
      var env := decode(line[6..]);
      if env.None? {
        continue;
      }
      cancelled := Poll(cancelled, Reached(cancelAt, read - 1));
      var abandon: bool := *;
      if cancelled && abandon {
        return;
      }
      events := events + [env.value];
    }
  }

  /** No data line has a payload that already decodes when it is cut short. */
  ghost predicate NoPrefixDecodes<E>(lines: seq<string>, decode: string -> Option<E>) {
    forall i, n :: 0 <= i < |lines| && IsDataLine(lines[i]) && 6 <= n < |lines[i]| ==> decode(lines[i][6..n]).None?
  }

  /**
   * Truncation safety without discarding anything: what any cut of a stream delivers is a prefix of
   * what its lines hold, provided no data line's payload decodes before it is complete.
   */
  lemma {:induction false} CutDeliversAPrefix<E>(s: string, k: nat, limit: nat, decode: string -> Option<E>)
    requires k <= |s| && NoPrefixDecodes(Split(s, |s| + 1).lines, decode)
    ensures Events(s[..k], limit, decode) <= Events(s, |s| + 1, decode)
    ensures !HasLongRun(s, limit) && limit > 0 ==> Events(s[..k], limit, decode) <= Events(s, limit, decode)
  {
    hide Split, LineEvents;
    var whole := |s| + 1;
    var t := s[..k];
    if limit <= whole {
      LimitLines(t, limit, whole);
    } else {
      NeverTooLong(t, whole);
      LimitLines(t, whole, limit);
    }
    LineEventsPrefix(Split(t, limit).lines, Split(t, whole).lines, decode);
    NeverTooLong(s, whole);
    CutLines(s, k, whole);
    var a, b := Split(t, whole).lines, Split(s, whole).lines;
    if a <= b {
      LineEventsPrefix(a, b, decode);
    } else {
      LastLineCut(a, b, decode);
    }
    if !HasLongRun(s, limit) && limit > 0 {
      TooLongExactly(s, limit);
      if limit <= whole {
        LimitLines(s, limit, whole);
      } else {
        LimitLines(s, whole, limit);
      }
    }
  }

  /** With a smaller limit the reader delivers a prefix, and the same when every line fits. */
  lemma {:induction false} LimitDeliversAPrefix<E>(s: string, small: nat, large: nat, decode: string -> Option<E>)
    requires 0 < small <= large
    ensures Events(s, small, decode) <= Events(s, large, decode)
    ensures !HasLongRun(s, small) ==> Events(s, small, decode) == Events(s, large, decode)
  {
    hide Split, LineEvents;
    LimitLines(s, small, large);
    TooLongExactly(s, small);
    LineEventsPrefix(Split(s, small).lines, Split(s, large).lines, decode);
  }

  lemma {:induction false} NeverTooLong(s: string, limit: nat)
    requires limit > |s|
    ensures !Split(s, limit).tooLong
  {
    TooLongExactly(s, limit);
  }

  lemma {:induction false} LastLineCut<E>(a: seq<string>, b: seq<string>, decode: string -> Option<E>)
    requires a != [] && |a| <= |b| && a[..|a| - 1] <= b && a[|a| - 1] <= b[|a| - 1] && NoPrefixDecodes(b, decode)
    ensures LineEvents(a, decode) <= LineEvents(b, decode)
  {
    hide LineEvents;
    var n := |a| - 1;
    assert a == a[..n] + [a[n]];
    LineEventsSnoc(a[..n], a[n], decode);
    if IsDataLine(a[n]) && a[n] != b[n] {
      assert IsDataLine(b[n]) && a[n][6..] == b[n][6..|a[n]|];
      LineEventsPrefix(a[..n], b, decode);
    } else if a[n] == b[n] {
      LineEventsPrefix(a, b, decode);
    } else {
      LineEventsPrefix(a[..n], b, decode);
    }
  }

  /** A frame with one data line, written with its space, decodable and complete as a channel message. */
  ghost predicate OneDataLine<E>(frame: Frame, decode: string -> Option<E>) {
    && Channel.Handler(decode)(frame).Emit?
    && |Values(frame, DataField, true)| == 1
    && AllDataSpaced(frame)
  }

  ghost predicate OneDataLineEach<E>(frames: seq<Frame>, decode: string -> Option<E>) {
    forall i :: 0 <= i < |frames| ==> OneDataLine(frames[i], decode)
  }

  ghost predicate AllDataSpaced(frame: Frame) {
    forall i :: 0 <= i < |frame| && NameOf(Field(frame[i])) == DataField ==> IsDataLine(frame[i])
  }

  /** The decodable values among some data values. */
  function DecodedValues<E>(values: seq<string>, decode: string -> Option<E>): seq<E> {
    if values == [] then []
    else
      var before, value := DecodedValues(values[..|values| - 1], decode), values[|values| - 1];
      if decode(value).Some? then before + [decode(value).value] else before
  }

  lemma {:induction false} DataLineValue(line: string)
    requires IsDataLine(line)
    ensures NameOf(Field(line)) == DataField && Value(line) == line[6..]
  {
    assert line == "data" + ":" + line[5..];
    FieldAndValueOf("data", line[5..]);
    assert line[5] == ' ';
  }

  lemma {:induction false} FrameLineEvents<E>(frame: Frame, decode: string -> Option<E>)
    requires AllDataSpaced(frame)
    ensures LineEvents(frame, decode) == DecodedValues(Values(frame, DataField, true), decode)
  {
    if frame != [] {
      var n := |frame| - 1;
      var before, line := frame[..n], frame[n];
      FrameLineEvents(before, decode);
      assert frame == before + [line];
      ValuesSnoc(before, line, DataField, true);
      LineEventsSnoc(before, line, decode);
      if IsDataLine(line) {
        DataLineValue(line);
        var values := Values(before, DataField, true);
        assert (values + [Value(line)])[..|values|] == values;
      }
    }
  }

  lemma {:induction false} OneDataLineEvent<E>(frame: Frame, decode: string -> Option<E>)
    requires OneDataLine(frame, decode)
    ensures Channel.Handler(decode)(frame).Emit?
    ensures LineEvents(frame, decode) == [Channel.Handler(decode)(frame).event]
  {
    FrameLineEvents(frame, decode);
    Channel.HoldByField(frame);
    var values := Values(frame, DataField, true);
    assert values == [] + [values[0]];
    DataSnoc([], values[0]);
    assert values[..0] == [];
  }

  /**
   * Where every completed frame has exactly one decodable data line, reading line by line and reading
   * frame by frame deliver the same events; the line reader may be ahead by the open frame's.
   */
  lemma {:induction false} ReadersAgree<E>(lines: seq<string>, decode: string -> Option<E>)
    requires OneDataLineEach(Group(lines).complete, decode)
    ensures var g := Group(lines);
            var frames := Deliver(g.complete, Channel.Handler(decode));
            !frames.failed && LineEvents(lines, decode) == frames.events + LineEvents(g.pending, decode)
  {
    hide OneDataLine, Channel.Handler;
    if lines != [] {
      var n := |lines| - 1;
      var before, line := lines[..n], lines[n];
      assert lines == before + [line];
      GroupSnoc(before, line);
      var g := Group(before);
      assert forall i :: 0 <= i < |g.complete| ==> g.complete[i] == Group(lines).complete[i];
      ReadersAgree(before, decode);
      LineEventsSnoc(before, line, decode);
      if line == "" {
        assert Group(lines).complete[|g.complete|] == g.pending;
        DeliverSnoc(g.complete, g.pending, Channel.Handler(decode));
        OneDataLineEvent(g.pending, decode);
      } else {
        LineEventsSnoc(g.pending, line, decode);
      }
    }
  }

  /** So on such streams, ending at a blank line and with lines that fit, both subscriptions deliver the same. */
  lemma {:induction false} SubscriptionsAgree<E>(s: string, decode: string -> Option<E>)
    requires !HasLongRun(s, DEFAULT_LIMIT) && Group(Split(s, DEFAULT_LIMIT).lines).pending == []
    requires OneDataLineEach(Completed(s, DEFAULT_LIMIT), decode)
    ensures Channel.Messages(s, decode) == Outcome(Events(s, DEFAULT_LIMIT, decode), false)
  {
    hide Split, Deliver, Group, OneDataLineEach, HasLongRun, Channel.Handler;
    var lines := Split(s, DEFAULT_LIMIT).lines;
    TooLongExactly(s, DEFAULT_LIMIT);
    LimitLines(s, DEFAULT_LIMIT, Channel.CHANNEL_LIMIT);
    ReadersAgree(lines, decode);
    NoLinesNoEvents(decode);
    var frames := Deliver(Group(lines).complete, Channel.Handler(decode));
    assert frames.events + [] == frames.events;
  }
}
