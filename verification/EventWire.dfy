/** What a daemon writes on the event stream, and that the reader gives back the events in it. */
module EventWire {
  import opened Text
  import opened Numbers
  import opened Lines
  import opened Frames
  import opened Fields
  import opened Wire
  import opened EventReader

  /** The field and the text a line is written with; a comment and a line without a colon have none. */
  function Named(line: WireLine): Option<(string, string)> {
    match line
    case DataLine(t, _) => Some(("data", t))
    case EventLine(k, _) => Some(("event", k))
    case OtherLine(n, t, _) => Some((n, t))
    case _ => None
  }

  /** The texts of the lines with a field's name, in order. */
  function TextsNamed(lines: seq<Written>, name: string): seq<string> {
    if lines == [] then []
    else
      var before := TextsNamed(lines[..|lines| - 1], name);
      match Named(lines[|lines| - 1].line)
      case Some((n, t)) => if n == name then before + [t] else before
      case None => before
  }

  lemma {:induction false} ReadNamed(line: WireLine)
    requires Writable(line)
    ensures match Named(line)
            case Some((n, t)) => HasColon(TextOf(line)) && Field(TextOf(line)) == n && Value(TextOf(line)) == t
            case None => HasColon(TextOf(line)) ==> Field(TextOf(line)) == ""
  {
    hide Field, Value, HasColon;
    match line
    case DataLine(t, spaced) => FieldAndValueOf("data", Spaced(t, spaced));
    case EventLine(k, spaced) => FieldAndValueOf("event", Spaced(k, spaced));
    case CommentLine(t) => FieldAndValueOf("", t);
    case OtherLine(n, t, spaced) => FieldAndValueOf(n, Spaced(t, spaced));
    case BareLine(n) => NoColon(n);
  }

  lemma {:induction false} NoColon(name: string)
    requires ':' !in name
    ensures !HasColon(name)
  {
  }

  /** The values the reader takes are the texts the lines were written with. */
  lemma {:induction false} ValuesWritten(lines: seq<Written>, name: Name, field: string)
    requires forall i :: 0 <= i < |lines| ==> Writable(lines[i].line)
    requires (name == DataField && field == "data") || (name == EventField && field == "event") ||
             (name == IdField && field == "id")
    ensures Values(Texts(lines), name, false) == TextsNamed(lines, field)
  {
    hide TextOf, Texts, Field, Value, HasColon, Writable, Named;
    if lines == [] {
      HoldNothing();
    } else {
      var n := |lines| - 1;
      ValuesWritten(lines[..n], name, field);
      assert lines == lines[..n] + [lines[n]];
      TextsSnoc(lines[..n], lines[n]);
      ReadNamed(lines[n].line);
      ValuesSnoc(Texts(lines[..n]), TextOf(lines[n].line), name, false);
    }
  }

  /** The last text that is a number is this one; without any it is 0. */
  ghost predicate Says(ids: seq<string>, number: int) {
    exists i :: SaysAt(ids, number, i)
  }

  ghost predicate SaysAt(ids: seq<string>, number: int, i: int) {
    && 0 <= i <= |ids|
    && (forall j, n :: i <= j < |ids| && IsInt64(n) ==> !Denotes(ids[j], n))
    && if i == 0 then number == 0 else ids[i - 1] == FormatInt(number) && IsInt64(number)
  }

  lemma {:induction false} SaidNumber(ids: seq<string>, number: int)
    requires Says(ids, number)
    ensures LastNumber(ids) == number
  {
    hide LastNumber, ParseInt, Denotes, FormatInt;
    var i :| SaysAt(ids, number, i);
    forall j | i <= j < |ids|
      ensures ParseInt(ids[j]) == None
    {
      if ParseInt(ids[j]).Some? {
        ParseIntExactly(ids[j], ParseInt(ids[j]).value);
      }
    }
    LastNumberIs(ids, i);
    if i > 0 {
      FormatThenParse(number);
    }
  }

  /**
   * An event is written with its number, if it has one, as the last numeric id, its kind as the last event
   * line, and its parts encoded over data lines, or without any; noise says nothing.
   */
  ghost predicate WellSentEvent(item: Sent<StreamEvent>, encode: EventPayload -> string) {
    && WritableFrame(item.frame)
    && var lines := item.frame.lines;
       var ids, kinds, texts := TextsNamed(lines, "id"), TextsNamed(lines, "event"), TextsNamed(lines, "data");
       match item
       case Message(_, e) =>
         && Says(ids, e.sequence)
         && e.kind == (if kinds == [] then "" else kinds[|kinds| - 1])
         && if AllEmpty(texts)
            then (e.sequence != 0 || e.kind != "") && e.scope == "" && e.sessionId == "" && e.payloadJson == ""
            else texts[0] != "" && Join(texts) == encode(EventPayload(e.scope, e.sessionId, e.payloadJson))
       case Noise(_) => Says(ids, 0) && (kinds == [] || kinds[|kinds| - 1] == "") && AllEmpty(texts)
  }

  predicate AllEmpty(texts: seq<string>) {
    forall i :: 0 <= i < |texts| ==> texts[i] == ""
  }

  lemma {:induction false} ReadEvent(item: Sent<StreamEvent>, encode: EventPayload -> string,
                                     decode: string -> Option<EventPayload>)
    requires WellSentEvent(item, encode) && Inverse(encode, decode)
    ensures ReadsAs(item, Handler(decode))
  {
    hide Texts, TextsNamed, Handler, Values, Says, LastNumber, Data, Join;
    var lines := item.frame.lines;
    WritableLines(item.frame);
    ValuesWritten(lines, IdField, "id");
    ValuesWritten(lines, EventField, "event");
    ValuesWritten(lines, DataField, "data");
    FrameEvent(Texts(lines), decode);
    var texts := TextsNamed(lines, "data");
    match item {
      case Message(_, e) =>
        SaidNumber(TextsNamed(lines, "id"), e.sequence);
        if AllEmpty(texts) {
          EmptyData(texts);
        } else {
          DataIsJoin(texts);
        }
      case Noise(_) =>
        SaidNumber(TextsNamed(lines, "id"), 0);
        EmptyData(texts);
    }
  }

  ghost predicate AllWellSentEvents(items: seq<Sent<StreamEvent>>, encode: EventPayload -> string) {
    forall i :: 0 <= i < |items| ==> WellSentEvent(items[i], encode)
  }

  lemma {:induction false} ReadEvents(items: seq<Sent<StreamEvent>>, encode: EventPayload -> string,
                                      decode: string -> Option<EventPayload>)
    requires AllWellSentEvents(items, encode) && Inverse(encode, decode)
    ensures AllReadAs(items, Handler(decode)) && WritableFrames(FramesOf(items))
  {
    hide Inverse, Handler, ReadsAs, WritableFrame;
    forall i | 0 <= i < |items|
      ensures ReadsAs(items[i], Handler(decode)) && WritableFrame(items[i].frame)
    {
      ReadEvent(items[i], encode, decode);
      FrameIsWritable(items[i], encode);
    }
    FramesAreWritable(items);
  }

  lemma {:induction false} FrameIsWritable(item: Sent<StreamEvent>, encode: EventPayload -> string)
    requires WellSentEvent(item, encode)
    ensures WritableFrame(item.frame)
  {
  }

  /**
   * Round trip: the events written on a stream, with comments, other fields, non-numeric ids and other
   * frames in between, are delivered as written, each part in its own place; an event whose frame is
   * still open at the end is delivered too, unless the stream was broken off.
   */
  lemma {:induction false} EventRoundTrip(items: seq<Sent<StreamEvent>>, last: Sent<StreamEvent>, ended: bool,
                                          broken: bool, encode: EventPayload -> string,
                                          decode: string -> Option<EventPayload>)
    requires AllWellSentEvents(items, encode) && WellSentEvent(last, encode) && Inverse(encode, decode)
    requires !HasLongRun(Render(FramesOf(items)) + RenderOpen(last.frame.lines, ended), 1048576)
    ensures var s := Render(FramesOf(items)) + RenderOpen(last.frame.lines, ended);
            && Events(s, broken, decode) ==
               Outcome(MessagesOf(items) + (if broken || last.Noise? then [] else [last.msg]), false)
            && !SomeFails(Flushed(s, broken, EVENT_LIMIT), Handler(decode))
  {
    hide Inverse, Handler, ReadsAs, AllReadAs, WritableFrames, WritableFrame, WellSentEvent, AllWellSentEvents;
    hide Render, RenderOpen, HasLongRun, Flushing, SomeFails, MessagesOf, FramesOf, Flushed;
    ReadEvents(items, encode, decode);
    ReadEvent(last, encode, decode);
    FrameIsWritable(last, encode);
    FlushingReadsAll(items, last, ended, broken, EVENT_LIMIT, Handler(decode));
  }

  /** Data that does not decode ends the stream with a decoding error, after the events written before it. */
  lemma {:induction false} UndecodableEventEndsAll(items: seq<Sent<StreamEvent>>, bad: WireFrame, rest: string,
                                                   broken: bool, encode: EventPayload -> string,
                                                   decode: string -> Option<EventPayload>)
    requires AllWellSentEvents(items, encode) && Inverse(encode, decode) && WritableFrame(bad)
    requires var texts := TextsNamed(bad.lines, "data"); texts != [] && texts[0] != "" && decode(Join(texts)) == None
    requires !HasLongRun(Render(FramesOf(items) + [bad]), 1048576)
    ensures var s := Render(FramesOf(items) + [bad]) + rest;
            && Events(s, broken, decode) == Outcome(MessagesOf(items), true)
            && SomeFails(Flushed(s, broken, EVENT_LIMIT), Handler(decode))
  {
    hide Inverse, Handler, ReadsAs, AllReadAs, WritableFrames, WritableFrame, WellSentEvent, AllWellSentEvents;
    hide Render, HasLongRun, Flushing, SomeFails, MessagesOf, FramesOf, Flushed, TextsNamed, Values, Texts;
    ReadEvents(items, encode, decode);
    WritableLines(bad);
    ValuesWritten(bad.lines, DataField, "data");
    FrameEvent(Texts(bad.lines), decode);
    DataIsJoin(TextsNamed(bad.lines, "data"));
    FailedFrameEndsAll(items, bad, rest, broken, EVENT_LIMIT, Handler(decode));
  }

  /** An event with a number and without line breaks can be sent on three lines. */
  lemma {:induction false} AnyEventCanBeSent(e: StreamEvent, encode: EventPayload -> string)
    requires var data := encode(EventPayload(e.scope, e.sessionId, e.payloadJson)); NoBreak(data) && data != ""
    requires NoBreak(e.kind) && IsInt64(e.sequence)
    ensures WellSentEvent(Message(ThreeLines(e, encode), e), encode)
  {
    hide TextsNamed, Denotes, FormatInt, NoBreak, WritableFrame;
    var frame := ThreeLines(e, encode);
    ThreeLinesAreWritable(e, encode);
    ThreeLinesSay(e, encode);
    assert SaysAt(TextsNamed(frame.lines, "id"), e.sequence, 1);
    assert TextsNamed(frame.lines, "data")[0] != "";
  }

  function ThreeLines(e: StreamEvent, encode: EventPayload -> string): WireFrame {
    var data := encode(EventPayload(e.scope, e.sessionId, e.payloadJson));
    WireFrame([Written(OtherLine("id", FormatInt(e.sequence), true), false),
               Written(EventLine(e.kind, true), false),
               Written(DataLine(data, true), false)], false)
  }

  lemma {:induction false} ThreeLinesAreWritable(e: StreamEvent, encode: EventPayload -> string)
    requires NoBreak(encode(EventPayload(e.scope, e.sessionId, e.payloadJson))) && NoBreak(e.kind)
    ensures WritableFrame(ThreeLines(e, encode))
  {
    hide FormatInt;
    NumberHasNoBreak(e.sequence);
    assert NoBreak("id") && ':' !in "id";
  }

  lemma {:induction false} NumberHasNoBreak(n: int)
    ensures NoBreak(FormatInt(n))
  {
    DigitsHaveNoBreak(if n < 0 then -n else n);
  }

  lemma {:induction false} DigitsHaveNoBreak(n: nat)
    ensures NoBreak(FormatNat(n))
  {
    if n >= 10 {
      DigitsHaveNoBreak(n / 10);
    }
  }

  lemma {:induction false} ThreeLinesSay(e: StreamEvent, encode: EventPayload -> string)
    ensures var lines := ThreeLines(e, encode).lines;
            && TextsNamed(lines, "id") == [FormatInt(e.sequence)]
            && TextsNamed(lines, "event") == [e.kind]
            && TextsNamed(lines, "data") == [encode(EventPayload(e.scope, e.sessionId, e.payloadJson))]
  {
    hide FormatInt;
    var lines := ThreeLines(e, encode).lines;
    assert lines[..2][..1] == lines[..1] && lines[..1][..0] == [];
    NamedSnoc(lines[..0], lines[0]);
    NamedSnoc(lines[..1], lines[1]);
    NamedSnoc(lines[..2], lines[2]);
    assert lines == lines[..2] + [lines[2]] && lines[..2] == lines[..1] + [lines[1]] && lines[..1] == [] + [lines[0]];
  }

  lemma {:induction false} NamedSnoc(lines: seq<Written>, w: Written)
    ensures forall name :: TextsNamed(lines + [w], name) ==
              match Named(w.line)
              case Some((n, t)) => if n == name then TextsNamed(lines, name) + [t] else TextsNamed(lines, name)
              case None => TextsNamed(lines, name)
  {
    assert (lines + [w])[..|lines|] == lines;
  }
}
