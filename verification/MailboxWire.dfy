/** What a daemon writes on a mailbox subscription, and that the reader gives back the messages in it. */
module MailboxWire {
  import opened Text
  import opened Lines
  import opened Frames
  import opened Fields
  import opened Wire
  import opened MessagingReader

  /** The texts of the data lines that are written with their space. */
  function SpacedTexts(lines: seq<Written>): seq<string> {
    if lines == [] then []
    else
      var before := SpacedTexts(lines[..|lines| - 1]);
      match lines[|lines| - 1].line
      case DataLine(t, true) => before + [t]
      case _ => before
  }

  /** A data line with its space is an event if its text decodes, whatever came before. */
  lemma {:induction false} OneMoreEvent<E>(lines: seq<string>, text: string, decode: string -> Option<E>)
    ensures LineEvents(lines + ["data: " + text], decode) ==
            LineEvents(lines, decode) + (if decode(text).Some? then [decode(text).value] else [])
  {
    hide LineEvents;
    LineEventsSnoc(lines, "data: " + text, decode);
    assert ("data: " + text)[6..] == text;
    assert LineEvents(lines, decode) + [] == LineEvents(lines, decode);
  }

  /** A line that does not start with `data`, colon and space is none. */
  lemma {:induction false} NoEvent<E>(lines: seq<string>, line: string, decode: string -> Option<E>)
    requires !("data: " <= line)
    ensures LineEvents(lines + [line], decode) == LineEvents(lines, decode)
  {
    hide LineEvents;
    LineEventsSnoc(lines, line, decode);
  }

  lemma {:induction false} NotSpaced(line: WireLine)
    requires Writable(line) && !(line.DataLine? && line.spaced)
    ensures !("data: " <= TextOf(line))
  {
    hide Field, NoBreak;
    SpacedPrefix(TextOf(line));
    match line
    case DataLine(t, _) => assert t != "" ==> TextOf(line)[5] == t[0];
    case EventLine(k, spaced) => FieldAndValueOf("event", Spaced(k, spaced));
    case CommentLine(t) => FieldAndValueOf("", t);
    case OtherLine(n, t, spaced) => FieldAndValueOf(n, Spaced(t, spaced));
    case BareLine(n) =>
  }

  lemma {:induction false} SpacedPrefix(line: string)
    ensures "data: " <= line ==> HasColon(line) && Field(line) == "data" && line[5] == ' '
  {
    hide Field, HasColon;
    if "data: " <= line {
      assert line == "data" + ":" + line[5..];
      FieldAndValueOf("data", line[5..]);
    }
  }

  lemma {:induction false} EventsAppend<E>(a: seq<string>, b: seq<string>, decode: string -> Option<E>)
    ensures LineEvents(a + b, decode) == LineEvents(a, decode) + LineEvents(b, decode)
  {
    if b == [] {
      assert a + b == a;
    } else {
      assert (a + b)[..|a + b| - 1] == a + b[..|b| - 1];
      EventsAppend(a, b[..|b| - 1], decode);
    }
  }

  /** The events of one frame's lines are the spaced texts that decode. */
  lemma {:induction false} FrameEvents<E>(lines: seq<Written>, decode: string -> Option<E>)
    requires forall i :: 0 <= i < |lines| ==> Writable(lines[i].line)
    ensures LineEvents(Texts(lines), decode) == DecodedValues(SpacedTexts(lines), decode)
  {
    hide Texts, LineEvents, Writable, TextOf;
    if lines == [] {
      HoldNothing();
      NoLinesNoEvents(decode);
    } else {
      var n := |lines| - 1;
      var line := lines[n].line;
      FrameEvents(lines[..n], decode);
      assert lines == lines[..n] + [lines[n]];
      TextsSnoc(lines[..n], lines[n]);
      if line.DataLine? && line.spaced {
        SpacedLine(line);
        OneMoreEvent(Texts(lines[..n]), line.text, decode);
        var before := SpacedTexts(lines[..n]);
        assert (before + [line.text])[..|before|] == before;
      } else {
        NotSpaced(line);
        NoEvent(Texts(lines[..n]), TextOf(line), decode);
      }
    }
  }

  lemma {:induction false} SpacedLine(line: WireLine)
    requires line.DataLine? && line.spaced
    ensures TextOf(line) == "data: " + line.text
  {
  }

  /** A message has one spaced data line that decodes, with its encoding; noise has none. */
  ghost predicate WellSentMail<E>(item: Sent<E>, encode: E -> string, decode: string -> Option<E>) {
    && WritableFrame(item.frame)
    && var texts := SpacedTexts(item.frame.lines);
       match item
       case Message(_, m) => exists i :: OnlyAt(texts, i, encode(m), decode)
       case Noise(_) => NoneDecodes(texts, decode)
  }

  ghost predicate OnlyAt<E>(texts: seq<string>, i: int, text: string, decode: string -> Option<E>) {
    0 <= i < |texts| && texts[i] == text && NoneDecodes(texts[..i], decode) && NoneDecodes(texts[i + 1..], decode)
  }

  ghost predicate NoneDecodes<E>(texts: seq<string>, decode: string -> Option<E>) {
    forall i :: 0 <= i < |texts| ==> decode(texts[i]) == None
  }

  ghost predicate AllWellSentMail<E>(items: seq<Sent<E>>, encode: E -> string, decode: string -> Option<E>) {
    forall i :: 0 <= i < |items| ==> WellSentMail(items[i], encode, decode)
  }

  lemma {:induction false} NothingDecoded<E>(texts: seq<string>, decode: string -> Option<E>)
    requires NoneDecodes(texts, decode)
    ensures DecodedValues(texts, decode) == []
  {
    if texts != [] {
      NothingDecoded(texts[..|texts| - 1], decode);
    }
  }

  lemma {:induction false} OneDecoded<E>(texts: seq<string>, i: nat, decode: string -> Option<E>)
    requires i < |texts| && OnlyAt(texts, i, texts[i], decode) && decode(texts[i]).Some?
    ensures DecodedValues(texts, decode) == [decode(texts[i]).value]
  {
    var n := |texts| - 1;
    if i == n {
      NothingDecoded(texts[..n], decode);
    } else {
      assert texts[..n][..i] == texts[..i] && texts[..n][i + 1..] == texts[i + 1..][..n - i - 1];
      assert texts[i + 1..][n - i - 1] == texts[n];
      OneDecoded(texts[..n], i, decode);
    }
  }

  function Sending<E>(item: Sent<E>): seq<E> {
    match item case Message(_, m) => [m] case Noise(_) => []
  }

  lemma {:induction false} ReadMail<E(!new)>(item: Sent<E>, encode: E -> string, decode: string -> Option<E>)
    requires WellSentMail(item, encode, decode) && Inverse(encode, decode)
    ensures LineEvents(Texts(item.frame.lines), decode) == Sending(item)
  {
    hide Texts, LineEvents, SpacedTexts, DecodedValues, NoneDecodes;
    WritableLines(item.frame);
    FrameEvents(item.frame.lines, decode);
    var texts := SpacedTexts(item.frame.lines);
    match item
    case Message(_, m) =>
      var i :| OnlyAt(texts, i, encode(m), decode);
      OneDecoded(texts, i, decode);
    case Noise(_) => NothingDecoded(texts, decode);
  }

  lemma {:induction false} MailIsWritable<E>(items: seq<Sent<E>>, encode: E -> string, decode: string -> Option<E>)
    requires AllWellSentMail(items, encode, decode)
    ensures WritableFrames(FramesOf(items))
  {
    hide WritableFrame, SpacedTexts, OnlyAt, NoneDecodes;
    forall i | 0 <= i < |items|
      ensures WritableFrame(items[i].frame)
    {
      assert WellSentMail(items[i], encode, decode);
    }
    FramesAreWritable(items);
  }

  lemma {:induction false} AllTextsSnoc(frames: seq<WireFrame>, f: WireFrame)
    ensures AllTexts(frames + [f]) == AllTexts(frames) + (Texts(f.lines) + [""])
  {
    hide Texts;
    if frames == [] {
      assert frames + [f] == [f] && [f][1..] == [];
    } else {
      assert (frames + [f])[1..] == frames[1..] + [f];
      AllTextsSnoc(frames[1..], f);
      Associate(Texts(frames[0].lines) + [""], AllTexts(frames[1..]), Texts(f.lines) + [""]);
    }
  }

  lemma {:induction false} MailEvents<E(!new)>(items: seq<Sent<E>>, encode: E -> string, decode: string -> Option<E>)
    requires AllWellSentMail(items, encode, decode) && Inverse(encode, decode)
    ensures LineEvents(AllTexts(FramesOf(items)), decode) == MessagesOf(items)
  {
    hide Texts, LineEvents, WellSentMail, AllTexts, Inverse;
    if items == [] {
      NoTexts();
      NoLinesNoEvents(decode);
    } else {
      var n := |items| - 1;
      MailEvents(items[..n], encode, decode);
      var texts := Texts(items[n].frame.lines);
      AllTextsSnoc(FramesOf(items[..n]), items[n].frame);
      ReadMail(items[n], encode, decode);
      NoEvent(texts, "", decode);
      EventsAppend(AllTexts(FramesOf(items[..n])), texts + [""], decode);
    }
  }

  lemma {:induction false} NoTexts()
    ensures AllTexts([]) == []
  {
  }

  /**
   * Round trip: the messages written on a mailbox stream, each on one data line with its space, with other
   * lines and frames in between, are delivered as written, the last one whether or not its line and its
   * frame are ended.
   */
  lemma {:induction false} MailRoundTrip<E(!new)>(items: seq<Sent<E>>, last: Sent<E>, ended: bool, encode: E -> string,
                                                  decode: string -> Option<E>)
    requires AllWellSentMail(items, encode, decode) && WellSentMail(last, encode, decode) && Inverse(encode, decode)
    requires !HasLongRun(Render(FramesOf(items)) + RenderOpen(last.frame.lines, ended), 65536)
    ensures Events(Render(FramesOf(items)) + RenderOpen(last.frame.lines, ended), 65536, decode) ==
            MessagesOf(items) + (match last case Message(_, m) => [m] case Noise(_) => [])
  {
    hide Split, LineEvents, WellSentMail, AllWellSentMail, Inverse, HasLongRun, Render, RenderOpen, Group, Texts;
    hide AllTexts, FramesOf, MessagesOf, WritableFrame, WritableFrames;
    MailIsWritable(items, encode, decode);
    LastIsWritable(last, encode, decode);
    RenderedOpen(FramesOf(items), last.frame, ended, 65536);
    MailEvents(items, encode, decode);
    ReadMail(last, encode, decode);
    EventsAppend(AllTexts(FramesOf(items)), Texts(last.frame.lines), decode);
  }

  lemma {:induction false} LastIsWritable<E>(item: Sent<E>, encode: E -> string, decode: string -> Option<E>)
    requires WellSentMail(item, encode, decode)
    ensures WritableFrame(item.frame)
  {
  }

  /** A message whose encoding has no line breaks can be sent on one data line. */
  lemma {:induction false} AnyMailCanBeSent<E(!new)>(m: E, encode: E -> string, decode: string -> Option<E>)
    requires NoBreak(encode(m)) && Inverse(encode, decode)
    ensures WellSentMail(Message(OneLine(encode(m)), m), encode, decode)
  {
    hide NoBreak;
    var lines := OneLine(encode(m)).lines;
    OneLineSays(encode(m));
    assert lines[..0] == [];
    assert SpacedTexts(lines) == [encode(m)];
    assert OnlyAt(SpacedTexts(lines), 0, encode(m), decode);
  }
}
