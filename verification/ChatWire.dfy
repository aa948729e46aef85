/** What a daemon writes on an AI chat stream, and that the reader gives back the events in it. */
module ChatWire {
  import opened Text
  import opened Lines
  import opened Frames
  import opened Fields
  import opened Wire
  import opened AIReader

  /** The texts of the data lines, without the white space around them. */
  function Trimmed(lines: seq<Written>): seq<string> {
    if lines == [] then []
    else
      var before := Trimmed(lines[..|lines| - 1]);
      match lines[|lines| - 1].line
      case DataLine(t, _) => before + [TrimSpace(t)]
      case _ => before
  }

  /** A data line is its text with any white space around it. */
  lemma {:induction false} PaddedLine(before: seq<string>, t: string, after: seq<string>)
    requires AllSpaces(before) && AllSpaces(after)
    requires t != "" && IsVisible(t[0]) && IsVisible(t[|t| - 1])
    ensures Hold(["data:" + Padding(before) + t + Padding(after)]) == t
  {
    hide TrimSpace, IsVisible, Padding;
    var line := "data:" + Padding(before) + t + Padding(after);
    TrimSpaceAround(before, t, after);
    assert line[5..] == Padding(before) + t + Padding(after);
    HoldOne(line);
  }

  lemma {:induction false} HoldOne(line: string)
    ensures Hold([line]) == AddLine("", line)
  {
    hide AddLine;
    var before: Frame := [line][..0];
    assert before == [];
  }

  /** The optional space after the colon is white space like any other. */
  lemma {:induction false} TrimSpaced(text: string, spaced: bool)
    ensures TrimSpace(Spaced(text, spaced)) == TrimSpace(text)
  {
    if spaced {
      StartSpaceOf(" ", text);
    }
  }

  /** What one written line adds to the data. */
  lemma {:induction false} AddWritten(data: string, line: WireLine)
    requires Writable(line)
    ensures AddLine(data, TextOf(line)) ==
            match line case DataLine(t, _) => AppendLine(data, TrimSpace(t)) case _ => data
  {
    hide TrimSpace, AppendLine, Spaced;
    match line
    case DataLine(t, spaced) =>
      TrimSpaced(t, spaced);
      assert ("data" + ":" + Spaced(t, spaced))[5..] == Spaced(t, spaced);
    case EventLine(k, spaced) => NotData("event", Spaced(k, spaced));
    case CommentLine(t) => NotData("", t);
    case OtherLine(n, t, spaced) => NotData(n, Spaced(t, spaced));
    case BareLine(n) => BareIsNotData(n);
  }

  lemma {:induction false} BareIsNotData(name: string)
    requires ':' !in name
    ensures !("data:" <= name)
  {
    PrefixIsField(name);
  }

  lemma {:induction false} NotData(name: string, rest: string)
    requires ':' !in name && name != "data"
    ensures !("data:" <= name + ":" + rest)
  {
    hide Field;
    FieldAndValueOf(name, rest);
    PrefixIsField(name + ":" + rest);
  }

  lemma {:induction false} PrefixIsField(line: string)
    ensures "data:" <= line ==> HasColon(line) && Field(line) == "data"
  {
    hide Field, HasColon;
    if "data:" <= line {
      assert line == "data" + ":" + line[5..];
      FieldAndValueOf("data", line[5..]);
    }
  }

  /** The accumulator holds the trimmed texts put together. */
  lemma {:induction false} HoldChat(lines: seq<Written>)
    requires forall i :: 0 <= i < |lines| ==> Writable(lines[i].line)
    ensures Hold(Texts(lines)) == Data(Trimmed(lines))
  {
    hide TextOf, Texts, AddLine, Data, Writable, TrimSpace;
    if lines == [] {
      HoldNothing();
    } else {
      var n := |lines| - 1;
      HoldChat(lines[..n]);
      assert lines == lines[..n] + [lines[n]];
      TextsSnoc(lines[..n], lines[n]);
      var texts := Texts(lines[..n]);
      assert (texts + [TextOf(lines[n].line)])[..|texts|] == texts;
      AddWritten(Hold(texts), lines[n].line);
      if lines[n].line.DataLine? {
        DataSnoc(Trimmed(lines[..n]), TrimSpace(lines[n].line.text));
      }
    }
  }

  /** An event is written over data lines of which the first is not blank; noise has only blank ones, or none. */
  ghost predicate WellSentChat<E>(item: Sent<E>, encode: E -> string) {
    && WritableFrame(item.frame)
    && var texts := Trimmed(item.frame.lines);
       match item
       case Message(_, e) => texts != [] && texts[0] != "" && Join(texts) == encode(e)
       case Noise(_) => forall i :: 0 <= i < |texts| ==> texts[i] == ""
  }

  ghost predicate AllWellSentChat<E>(items: seq<Sent<E>>, encode: E -> string) {
    forall i :: 0 <= i < |items| ==> WellSentChat(items[i], encode)
  }

  lemma {:induction false} ReadChat<E(!new)>(item: Sent<E>, encode: E -> string, decode: string -> Option<E>)
    requires WellSentChat(item, encode) && Inverse(encode, decode)
    ensures ReadsAs(item, Handler(decode)) && WritableFrame(item.frame)
  {
    hide Texts, Trimmed, Hold, Data;
    WritableLines(item.frame);
    HoldChat(item.frame.lines);
    var texts := Trimmed(item.frame.lines);
    match item
    case Message(_, e) => DataIsJoin(texts);
    case Noise(_) => EmptyData(texts);
  }

  lemma {:induction false} ReadChats<E(!new)>(items: seq<Sent<E>>, encode: E -> string, decode: string -> Option<E>)
    requires AllWellSentChat(items, encode) && Inverse(encode, decode)
    ensures AllReadAs(items, Handler(decode)) && WritableFrames(FramesOf(items))
  {
    hide Inverse, Handler, ReadsAs, WritableFrame, WellSentChat;
    forall i | 0 <= i < |items|
      ensures ReadsAs(items[i], Handler(decode)) && WritableFrame(items[i].frame)
    {
      ReadChat(items[i], encode, decode);
    }
    FramesAreWritable(items);
  }

  /**
   * Round trip: the events written on a chat stream, over any number of data lines with any white space
   * around their texts, and with other lines and frames in between, are delivered as written; an event
   * whose frame is still open at the end is delivered too, unless the stream was broken off.
   */
  lemma {:induction false} ChatRoundTrip<E(!new)>(items: seq<Sent<E>>, last: Sent<E>, ended: bool, broken: bool,
                                                  encode: E -> string, decode: string -> Option<E>)
    requires AllWellSentChat(items, encode) && WellSentChat(last, encode) && Inverse(encode, decode)
    requires !HasLongRun(Render(FramesOf(items)) + RenderOpen(last.frame.lines, ended), 1048576)
    ensures var s := Render(FramesOf(items)) + RenderOpen(last.frame.lines, ended);
            && Events(s, broken, decode) ==
               Outcome(MessagesOf(items) + (if broken || last.Noise? then [] else [last.msg]), false)
            && !SomeFails(Flushed(s, broken, AI_LIMIT), Handler(decode))
  {
    hide Inverse, Handler, ReadsAs, AllReadAs, WritableFrames, WritableFrame, WellSentChat, AllWellSentChat;
    hide Render, RenderOpen, HasLongRun, Flushing, SomeFails, MessagesOf, FramesOf, Flushed;
    ReadChats(items, encode, decode);
    ReadChat(last, encode, decode);
    FlushingReadsAll(items, last, ended, broken, AI_LIMIT, Handler(decode));
  }

  /** Data that does not decode ends the stream with a decoding error, after the events written before it. */
  lemma {:induction false} UndecodableChatEndsAll<E(!new)>(items: seq<Sent<E>>, bad: WireFrame, rest: string,
                                                           broken: bool, encode: E -> string,
                                                           decode: string -> Option<E>)
    requires AllWellSentChat(items, encode) && Inverse(encode, decode) && WritableFrame(bad)
    requires var texts := Trimmed(bad.lines); texts != [] && texts[0] != "" && decode(Join(texts)) == None
    requires !HasLongRun(Render(FramesOf(items) + [bad]), 1048576)
    ensures var s := Render(FramesOf(items) + [bad]) + rest;
            && Events(s, broken, decode) == Outcome(MessagesOf(items), true)
            && SomeFails(Flushed(s, broken, AI_LIMIT), Handler(decode))
  {
    hide Inverse, ReadsAs, AllReadAs, WritableFrames, WritableFrame, WellSentChat, AllWellSentChat, Hold, Data;
    hide Render, HasLongRun, Flushing, SomeFails, MessagesOf, FramesOf, Flushed, Trimmed, Texts;
    ReadChats(items, encode, decode);
    WritableLines(bad);
    HoldChat(bad.lines);
    DataIsJoin(Trimmed(bad.lines));
    FailedFrameEndsAll(items, bad, rest, broken, AI_LIMIT, Handler(decode));
  }

  /** An event whose encoding has no line breaks and no white space around it can be sent on one data line. */
  lemma {:induction false} AnyChatCanBeSent<E>(e: E, encode: E -> string)
    requires var d := encode(e); NoBreak(d) && d != "" && IsVisible(d[0]) && IsVisible(d[|d| - 1])
    ensures WellSentChat(Message(OneLine(encode(e)), e), encode)
  {
    hide TrimSpace, NoBreak;
    var d := encode(e);
    var lines := OneLine(d).lines;
    OneLineSays(d);
    TrimSpaceAround([], d, []);
    assert Padding([]) + d + Padding([]) == d;
    assert lines[..0] == [];
    assert Trimmed(lines) == [d];
  }
}
