/** What a daemon may write on a channel stream, and that the reader gives back the messages in it. */
module Wire {
  import opened Text
  import opened Lines
  import opened Frames
  import opened Fields
  import opened Truncation
  import Channel = ChannelReader

  /** A field line may leave out the space after its colon, or, without a value, the colon as well. */
  datatype WireLine =
    | DataLine(text: string, spaced: bool)
    | EventLine(kind: string, spaced: bool)
    | CommentLine(text: string)
    | OtherLine(name: string, text: string, spaced: bool)
    | BareLine(name: string)

  /** Lines may end in LF or CRLF, in any mixture. */
  datatype Written = Written(line: WireLine, crlf: bool)
  datatype WireFrame = WireFrame(lines: seq<Written>, crlf: bool)

  function Spaced(text: string, spaced: bool): string {
    if spaced then " " + text else text
  }

  function TextOf(line: WireLine): string {
    match line
    case DataLine(t, spaced) => "data" + ":" + Spaced(t, spaced)
    case EventLine(k, spaced) => "event" + ":" + Spaced(k, spaced)
    case CommentLine(t) => "" + ":" + t
    case OtherLine(n, t, spaced) => n + ":" + Spaced(t, spaced)
    case BareLine(n) => n
  }

  predicate NoBreak(s: string) {
    forall i :: 0 <= i < |s| ==> s[i] != '\n' && s[i] != '\r'
  }

  /** Without the space, the text itself must not start with one. */
  predicate Clear(text: string, spaced: bool) {
    NoBreak(text) && (spaced || text == "" || text[0] != ' ')
  }

  predicate Writable(line: WireLine) {
    match line
    case DataLine(t, spaced) => Clear(t, spaced)
    case EventLine(k, spaced) => Clear(k, spaced)
    case CommentLine(t) => NoBreak(t)
    case OtherLine(n, t, spaced) => NoBreak(n) && ':' !in n && n != "data" && n != "event" && Clear(t, spaced)
    case BareLine(n) => n != "" && NoBreak(n) && ':' !in n
  }

  /** The way some text is written as a line. */
  function LineFor(text: string): WireLine {
    if !HasColon(text) then BareLine(text)
    else
      var name, rest := Field(text), text[IndexOf(text, ':') + 1..];
      var value, spaced := TrimOneSpace(rest), rest != "" && rest[0] == ' ';
      if name == "" then CommentLine(rest)
      else if name == "data" then DataLine(value, spaced)
      else if name == "event" then EventLine(value, spaced)
      else OtherLine(name, value, spaced)
  }

  /** No line that a stream can hold is outside the written form, but for the blank one, which ends a frame. */
  lemma {:induction false} AnyLineIsWritten(text: string)
    requires text != "" && NoBreak(text)
    ensures Writable(LineFor(text)) && TextOf(LineFor(text)) == text
  {
    hide NoBreak, Clear, Spaced, IndexOf;
    if HasColon(text) {
      AtTheColon(text);
      SpacedAgain(text[IndexOf(text, ':') + 1..]);
    }
  }

  lemma {:induction false} AtTheColon(text: string)
    requires NoBreak(text) && HasColon(text)
    ensures var name, rest := Field(text), text[IndexOf(text, ':') + 1..];
            text == name + ":" + rest && NoBreak(name) && ':' !in name && NoBreak(rest)
  {
    var i := IndexOf(text, ':');
    var rest := text[i + 1..];
    assert forall k :: 0 <= k < |rest| ==> rest[k] == text[k + i + 1];
  }

  lemma {:induction false} SpacedAgain(rest: string)
    requires NoBreak(rest)
    ensures var value, spaced := TrimOneSpace(rest), rest != "" && rest[0] == ' ';
            Spaced(value, spaced) == rest && Clear(value, spaced)
  {
  }

  function LineEnd(crlf: bool): (end: string)
    ensures end != ""
  {
    if crlf then "\r\n" else "\n"
  }

  /** The lines a frame is written as, with its closing blank line. */
  function RenderLines(lines: seq<Written>, crlf: bool): string {
    if lines == [] then LineEnd(crlf)
    else TextOf(lines[0].line) + LineEnd(lines[0].crlf) + RenderLines(lines[1..], crlf)
  }

  function Render(frames: seq<WireFrame>): string {
    if frames == [] then ""
    else RenderLines(frames[0].lines, frames[0].crlf) + Render(frames[1..])
  }

  function Texts(lines: seq<Written>): Frame {
    if lines == [] then [] else [TextOf(lines[0].line)] + Texts(lines[1..])
  }

  function FrameTexts(frames: seq<WireFrame>): seq<Frame> {
    if frames == [] then [] else [Texts(frames[0].lines)] + FrameTexts(frames[1..])
  }

  predicate WritableFrame(frame: WireFrame) {
    forall i :: 0 <= i < |frame.lines| ==> Writable(frame.lines[i].line)
  }

  predicate WritableFrames(frames: seq<WireFrame>) {
    forall i :: 0 <= i < |frames| ==> WritableFrame(frames[i])
  }

  // The scanner takes the writing apart again.

  lemma {:induction false} TextsAreLines(line: WireLine)
    requires Writable(line)
    ensures NoBreak(TextOf(line)) && TextOf(line) != ""
  {
    hide NoBreak;
    match line
    case DataLine(t, spaced) => NamedNoBreak("data", t, spaced);
    case EventLine(k, spaced) => NamedNoBreak("event", k, spaced);
    case CommentLine(t) => NamedNoBreak("", t, false);
    case OtherLine(n, t, spaced) => NamedNoBreak(n, t, spaced);
    case BareLine(_) =>
  }

  lemma {:induction false} NamedNoBreak(name: string, text: string, spaced: bool)
    requires NoBreak(text)
    ensures NoBreak("data") && NoBreak("event") && NoBreak("")
    ensures NoBreak(name) ==> NoBreak(name + ":" + Spaced(text, spaced))
  {
  }

  /** One written line in front of anything. */
  lemma {:induction false} SplitWritten(text: string, crlf: bool, rest: string, limit: nat)
    requires NoBreak(text) && |text| + 1 < limit
    ensures Split(text + LineEnd(crlf) + rest, limit).lines == [text] + Split(rest, limit).lines
    ensures CleanStarts(rest, limit) ==> CleanStarts(text + LineEnd(crlf) + rest, limit)
  {
    hide Split;
    var first, s := if crlf then text + "\r" else text, text + LineEnd(crlf) + rest;
    assert s == first + "\n" + rest;
    FirstLine(first, rest, limit);
    assert crlf ==> first[..|first| - 1] == text;
    IndexOfUnique(s, '\n', |first|);
    assert s[|first| + 1..] == rest;
  }

  lemma {:induction false} SplitFrame(lines: seq<Written>, crlf: bool, rest: string, limit: nat)
    requires forall i :: 0 <= i < |lines| ==> Writable(lines[i].line)
    requires limit > |RenderLines(lines, crlf)|
    ensures Split(RenderLines(lines, crlf) + rest, limit).lines == Texts(lines) + [""] + Split(rest, limit).lines
    ensures CleanStarts(rest, limit) ==> CleanStarts(RenderLines(lines, crlf) + rest, limit)
    decreases |lines|
  {
    hide Split, CleanStarts, TextOf, LineEnd;
    if lines == [] {
      SplitWritten("", crlf, rest, limit);
      assert "" + LineEnd(crlf) + rest == LineEnd(crlf) + rest;
      assert [] + [""] + Split(rest, limit).lines == [""] + Split(rest, limit).lines;
    } else {
      var text, end, more := TextOf(lines[0].line), LineEnd(lines[0].crlf), RenderLines(lines[1..], crlf);
      TextsAreLines(lines[0].line);
      SplitFrame(lines[1..], crlf, rest, limit);
      SplitWritten(text, lines[0].crlf, more + rest, limit);
      Associate(text + end, more, rest);
      Associate([text], Texts(lines[1..]) + [""], Split(rest, limit).lines);
      Associate([text], Texts(lines[1..]), [""]);
    }
  }

  lemma {:induction false} Associate<T>(a: seq<T>, b: seq<T>, c: seq<T>)
    ensures a + (b + c) == a + b + c
  {
  }

  lemma {:induction false} GroupFrame(frame: Frame, lines: seq<string>)
    requires forall i :: 0 <= i < |frame| ==> frame[i] != ""
    ensures Group(frame + [""] + lines) == Framed([frame] + Group(lines).complete, Group(lines).pending)
    decreases |lines|
  {
    GroupNoBlank(frame);
    GroupSnoc(frame, "");
    GroupAppend(frame + [""], lines);
  }

  lemma {:induction false} GroupNoBlank(frame: Frame)
    requires forall i :: 0 <= i < |frame| ==> frame[i] != ""
    ensures Group(frame) == Framed([], frame)
  {
    if frame != [] {
      GroupNoBlank(frame[..|frame| - 1]);
    }
  }

  lemma {:induction false} TextsAreNotBlank(lines: seq<Written>)
    requires forall i :: 0 <= i < |lines| ==> Writable(lines[i].line)
    ensures forall i :: 0 <= i < |Texts(lines)| ==> Texts(lines)[i] != ""
  {
    if lines != [] {
      TextsAreLines(lines[0].line);
      TextsAreNotBlank(lines[1..]);
    }
  }

  /** A written stream is read as exactly the frames that were written, and can be cut anywhere. */
  lemma {:induction false} RenderedFrames(frames: seq<WireFrame>, limit: nat)
    requires WritableFrames(frames) && limit > |Render(frames)|
    ensures Completed(Render(frames), limit) == FrameTexts(frames)
    ensures CleanStarts(Render(frames), limit)
    decreases |frames|
  {
    hide Split, RenderLines, Texts, Group, WritableFrame;
    if frames == [] {
      SplitOfNothing(limit);
      GroupOfNothing();
    } else {
      var f, rest := frames[0], Render(frames[1..]);
      RenderedFrames(frames[1..], limit);
      assert WritableFrame(f);
      WritableLines(f);
      SplitFrame(f.lines, f.crlf, rest, limit);
      TextsAreNotBlank(f.lines);
      GroupFrame(Texts(f.lines), Split(rest, limit).lines);
    }
  }

  lemma {:induction false} WritableLines(frame: WireFrame)
    requires WritableFrame(frame)
    ensures forall i :: 0 <= i < |frame.lines| ==> Writable(frame.lines[i].line)
  {
  }

  // What a written frame says.

  /** The data a line adds. */
  function DataOf(line: WireLine): Option<string> {
    match line
    case DataLine(t, _) => Some(t)
    case BareLine(n) => if n == "data" then Some("") else None
    case _ => None
  }

  /** The kind a line sets. */
  function KindOf(line: WireLine): Option<string> {
    match line
    case EventLine(k, _) => Some(k)
    case BareLine(n) => if n == "event" then Some("") else None
    case _ => None
  }

  function DataTexts(lines: seq<Written>): seq<string> {
    if lines == [] then []
    else
      var before := DataTexts(lines[..|lines| - 1]);
      match DataOf(lines[|lines| - 1].line)
      case Some(t) => before + [t]
      case None => before
  }

  /** The kind the last event line sets, empty without one. */
  function Kind(lines: seq<Written>): string {
    if lines == [] then ""
    else
      match KindOf(lines[|lines| - 1].line)
      case Some(k) => k
      case None => Kind(lines[..|lines| - 1])
  }

  /** The reader takes a written line for what it was written as. */
  lemma {:induction false} ReadWrittenLine(line: WireLine)
    requires Writable(line)
    ensures var name, value := NameOf(Field(TextOf(line))), Value(TextOf(line));
            && (name == DataField <==> DataOf(line).Some?) && (name == EventField <==> KindOf(line).Some?)
            && (DataOf(line).Some? ==> DataOf(line) == Some(value))
            && (KindOf(line).Some? ==> KindOf(line) == Some(value))
  {
    hide Field, Value;
    match line
    case DataLine(t, spaced) => FieldAndValueOf("data", Spaced(t, spaced));
    case EventLine(k, spaced) => FieldAndValueOf("event", Spaced(k, spaced));
    case CommentLine(t) => FieldAndValueOf("", t);
    case OtherLine(n, t, spaced) => FieldAndValueOf(n, Spaced(t, spaced));
    case BareLine(n) => BareFieldAndValue(n);
  }

  lemma {:induction false} BareFieldAndValue(name: string)
    requires ':' !in name
    ensures Field(name) == name && Value(name) == ""
  {
    IndexOfUnique(name, ':', |name|);
  }

  lemma {:induction false} TextsSnoc(lines: seq<Written>, w: Written)
    ensures Texts(lines + [w]) == Texts(lines) + [TextOf(w.line)]
  {
    hide TextOf;
    if lines == [] {
      assert lines + [w] == [w] && [w][1..] == [];
    } else {
      assert (lines + [w])[1..] == lines[1..] + [w];
      TextsSnoc(lines[1..], w);
    }
  }

  lemma {:induction false} HoldWritten(lines: seq<Written>)
    requires forall i :: 0 <= i < |lines| ==> Writable(lines[i].line)
    ensures Channel.Hold(Texts(lines)) == Channel.Held(Data(DataTexts(lines)), Kind(lines))
  {
    hide TextOf, Texts, NameOf, Field, Value, Data, Writable, DataOf, KindOf;
    if lines == [] {
      HoldNothing();
    } else {
      var n := |lines| - 1;
      var before, line := lines[..n], lines[n];
      HoldWritten(before);
      TextsSnoc(before, line);
      assert lines == before + [line];
      var texts := Texts(before);
      assert (texts + [TextOf(line.line)])[..|texts|] == texts;
      ReadWrittenLine(line.line);
      if DataOf(line.line).Some? {
        DataSnoc(DataTexts(before), DataOf(line.line).value);
      }
    }
  }

  lemma {:induction false} HoldNothing()
    ensures Texts([]) == [] && Data([]) == ""
  {
  }

  // Messages and what may stand between them.

  datatype Sent<M> = Message(frame: WireFrame, msg: M) | Noise(frame: WireFrame)

  /** A message is written over one or more data lines, the first not empty; noise is no message event with data. */
  ghost predicate WellSent<M>(item: Sent<M>, encode: M -> string) {
    && WritableFrame(item.frame)
    && var texts, kind := DataTexts(item.frame.lines), Kind(item.frame.lines);
       match item
       case Message(_, m) => texts != [] && texts[0] != "" && Join(texts) == encode(m) &&
           (kind == "" || kind == "message")
       case Noise(_) => (kind != "" && kind != "message") || forall i :: 0 <= i < |texts| ==> texts[i] == ""
  }

  ghost predicate AllWellSent<M>(items: seq<Sent<M>>, encode: M -> string) {
    forall i :: 0 <= i < |items| ==> WellSent(items[i], encode)
  }

  /** The decoder gives back what was encoded. */
  ghost predicate Inverse<M(!new)>(encode: M -> string, decode: string -> Option<M>) {
    forall m: M :: decode(encode(m)) == Some(m)
  }

  function FramesOf<M>(items: seq<Sent<M>>): seq<WireFrame> {
    if items == [] then [] else FramesOf(items[..|items| - 1]) + [items[|items| - 1].frame]
  }

  function MessagesOf<M>(items: seq<Sent<M>>): seq<M> {
    if items == [] then []
    else
      var before := MessagesOf(items[..|items| - 1]);
      match items[|items| - 1]
      case Message(_, m) => before + [m]
      case Noise(_) => before
  }

  lemma {:induction false} EmptyData(texts: seq<string>)
    requires forall i :: 0 <= i < |texts| ==> texts[i] == ""
    ensures Data(texts) == ""
  {
    if texts != [] {
      EmptyData(texts[..|texts| - 1]);
    }
  }

  lemma {:induction false} ReadSent<M(!new)>(item: Sent<M>, encode: M -> string, decode: string -> Option<M>)
    requires WellSent(item, encode) && Inverse(encode, decode)
    ensures Channel.Handler(decode)(Texts(item.frame.lines)) ==
            match item case Message(_, m) => Emit(m) case Noise(_) => Skip
  {
    hide Channel.Hold, Texts, Kind, DataTexts, Data;
    HoldWritten(item.frame.lines);
    var texts := DataTexts(item.frame.lines);
    match item
    case Message(_, m) => DataIsJoin(texts);
    case Noise(_) =>
      if Kind(item.frame.lines) == "" || Kind(item.frame.lines) == "message" {
        EmptyData(texts);
      }
  }

  lemma {:induction false} FrameTextsSnoc(frames: seq<WireFrame>, f: WireFrame)
    ensures FrameTexts(frames + [f]) == FrameTexts(frames) + [Texts(f.lines)]
  {
    hide Texts;
    if frames == [] {
      assert frames + [f] == [f] && [f][1..] == [];
    } else {
      assert (frames + [f])[1..] == frames[1..] + [f];
      FrameTextsSnoc(frames[1..], f);
    }
  }

  lemma {:induction false} FramesAreWritable<M>(items: seq<Sent<M>>)
    requires forall i :: 0 <= i < |items| ==> WritableFrame(items[i].frame)
    ensures WritableFrames(FramesOf(items))
  {
    hide WritableFrame;
    if items != [] {
      FramesAreWritable(items[..|items| - 1]);
    }
  }

  lemma {:induction false} SentFramesAreWritable<M>(items: seq<Sent<M>>, encode: M -> string)
    requires AllWellSent(items, encode)
    ensures WritableFrames(FramesOf(items)) && |FramesOf(items)| == |items|
  {
    hide WritableFrame, DataTexts, Kind;
    if items != [] {
      SentFramesAreWritable(items[..|items| - 1], encode);
      assert WellSent(items[|items| - 1], encode);
    }
  }

  /** What a reader has to make of an item's frame. */
  ghost predicate ReadsAs<M>(item: Sent<M>, h: Frame -> FrameResult<M>) {
    h(Texts(item.frame.lines)) == match item case Message(_, m) => Emit(m) case Noise(_) => Skip
  }

  ghost predicate AllReadAs<M>(items: seq<Sent<M>>, h: Frame -> FrameResult<M>) {
    forall i :: 0 <= i < |items| ==> ReadsAs(items[i], h)
  }

  lemma {:induction false} DeliverWritten<M>(items: seq<Sent<M>>, h: Frame -> FrameResult<M>)
    requires AllReadAs(items, h)
    ensures Deliver(FrameTexts(FramesOf(items)), h) == Outcome(MessagesOf(items), false)
  {
    hide Texts;
    if items != [] {
      var n := |items| - 1;
      DeliverWritten(items[..n], h);
      FrameTextsSnoc(FramesOf(items[..n]), items[n].frame);
      assert ReadsAs(items[n], h);
      DeliverSnoc(FrameTexts(FramesOf(items[..n])), Texts(items[n].frame.lines), h);
    }
  }

  lemma {:induction false} DeliverSent<M(!new)>(items: seq<Sent<M>>, encode: M -> string, decode: string -> Option<M>)
    requires AllWellSent(items, encode) && Inverse(encode, decode)
    ensures Deliver(FrameTexts(FramesOf(items)), Channel.Handler(decode)) == Outcome(MessagesOf(items), false)
  {
    hide WellSent, Channel.Handler, Inverse, Deliver;
    forall i | 0 <= i < |items|
      ensures ReadsAs(items[i], Channel.Handler(decode))
    {
      ReadSent(items[i], encode, decode);
    }
    DeliverWritten(items, Channel.Handler(decode));
  }

  /**
   * Round trip: messages written as frames, over any number of data lines, with comments, other fields
   * and other frames in between, are read back as exactly the messages, whatever line ends were used.
   */
  lemma {:induction false} RoundTrip<M(!new)>(items: seq<Sent<M>>, limit: nat, encode: M -> string,
                                              decode: string -> Option<M>)
    requires AllWellSent(items, encode) && Inverse(encode, decode)
    requires limit > 0 && !HasLongRun(Render(FramesOf(items)), limit)
    ensures Discarding(Render(FramesOf(items)), limit, Channel.Handler(decode)) == Outcome(MessagesOf(items), false)
  {
    hide Split, AllWellSent, Deliver, Group, Channel.Handler, Inverse, HasLongRun;
    var s := Render(FramesOf(items));
    var whole := |s| + 1;
    SentFramesAreWritable(items, encode);
    RenderedFrames(FramesOf(items), whole);
    DeliverSent(items, encode, decode);
    SplitFits(s, limit, whole);
  }

  /** Where every line fits the limit, the lines are those read without one. */
  lemma {:induction false} SplitFits(s: string, limit: nat, whole: nat)
    requires limit > 0 && !HasLongRun(s, limit) && whole > |s|
    ensures Split(s, limit) == Split(s, whole)
  {
    hide Split;
    assert !HasLongRun(s, whole);
    TooLongExactly(s, limit);
    TooLongExactly(s, whole);
    if limit <= whole {
      LimitLines(s, limit, whole);
    } else {
      LimitLines(s, whole, limit);
    }
  }

  // A stream whose last frame is not closed by a blank line.

  /** The lines of an open frame; `ended` says whether the last one has its line end. */
  function RenderOpen(lines: seq<Written>, ended: bool): string {
    if lines == [] then ""
    else if |lines| == 1 && !ended then TextOf(lines[0].line)
    else TextOf(lines[0].line) + LineEnd(lines[0].crlf) + RenderOpen(lines[1..], ended)
  }

  /** The lines of closed frames, each with its blank line. */
  function AllTexts(frames: seq<WireFrame>): seq<string> {
    if frames == [] then [] else Texts(frames[0].lines) + [""] + AllTexts(frames[1..])
  }

  lemma {:induction false} SplitOpen(lines: seq<Written>, ended: bool, limit: nat)
    requires forall i :: 0 <= i < |lines| ==> Writable(lines[i].line)
    requires limit > |RenderOpen(lines, ended)|
    ensures Split(RenderOpen(lines, ended), limit).lines == Texts(lines)
    decreases |lines|
  {
    hide Split, TextOf, LineEnd, Writable;
    if lines == [] {
      SplitOfNothing(limit);
    } else {
      TextsAreLines(lines[0].line);
      var text := TextOf(lines[0].line);
      if |lines| == 1 && !ended {
        LastTextAlone(text, limit);
        assert Texts(lines) == [text] + Texts(lines[1..]) && Texts(lines[1..]) == [];
      } else {
        SplitOpen(lines[1..], ended, limit);
        EndIsShort(lines[0].crlf);
        SplitWritten(text, lines[0].crlf, RenderOpen(lines[1..], ended), limit);
      }
    }
  }

  lemma {:induction false} EndIsShort(crlf: bool)
    ensures |LineEnd(crlf)| >= 1 && (crlf ==> |LineEnd(crlf)| == 2)
  {
  }

  lemma {:induction false} LastTextAlone(text: string, limit: nat)
    requires NoBreak(text) && text != "" && |text| < limit
    ensures Split(text, limit).lines == [text]
  {
    LastLineAlone(text, limit);
  }

  lemma {:induction false} SplitRendered(frames: seq<WireFrame>, rest: string, limit: nat)
    requires WritableFrames(frames) && limit > |Render(frames)|
    ensures Split(Render(frames) + rest, limit).lines == AllTexts(frames) + Split(rest, limit).lines
    decreases |frames|
  {
    hide Split, RenderLines, Texts, WritableFrame;
    if frames == [] {
      assert "" + rest == rest && [] + Split(rest, limit).lines == Split(rest, limit).lines;
    } else {
      var f, more := frames[0], Render(frames[1..]);
      assert WritableFrame(f);
      WritableLines(f);
      SplitRendered(frames[1..], rest, limit);
      SplitFrame(f.lines, f.crlf, more + rest, limit);
      Associate(RenderLines(f.lines, f.crlf), more, rest);
      Associate(Texts(f.lines) + [""], AllTexts(frames[1..]), Split(rest, limit).lines);
    }
  }

  lemma {:induction false} GroupRendered(frames: seq<WireFrame>, tail: seq<string>)
    requires WritableFrames(frames)
    ensures Group(AllTexts(frames) + tail) == Framed(FrameTexts(frames) + Group(tail).complete, Group(tail).pending)
    decreases |frames|
  {
    hide Texts, Group, WritableFrame;
    if frames == [] {
      assert [] + tail == tail && [] + Group(tail).complete == Group(tail).complete;
    } else {
      var f := frames[0];
      assert WritableFrame(f);
      WritableLines(f);
      TextsAreNotBlank(f.lines);
      GroupRendered(frames[1..], tail);
      GroupFrame(Texts(f.lines), AllTexts(frames[1..]) + tail);
      Associate(Texts(f.lines) + [""], AllTexts(frames[1..]), tail);
      Associate([Texts(f.lines)], FrameTexts(frames[1..]), Group(tail).complete);
    }
  }

  /** Closed frames and an open one are read as exactly those. */
  lemma {:induction false} RenderedOpen(frames: seq<WireFrame>, open: WireFrame, ended: bool, limit: nat)
    requires WritableFrames(frames) && WritableFrame(open)
    requires limit > 0 && !HasLongRun(Render(frames) + RenderOpen(open.lines, ended), limit)
    ensures var s := Render(frames) + RenderOpen(open.lines, ended);
            && Split(s, limit) == Scanned(AllTexts(frames) + Texts(open.lines), false)
            && Group(Split(s, limit).lines) == Framed(FrameTexts(frames), Texts(open.lines))
  {
    hide Split, Render, RenderOpen, Texts, Group, HasLongRun, AllTexts, FrameTexts;
    var s := Render(frames) + RenderOpen(open.lines, ended);
    var whole := |s| + 1;
    SplitFits(s, limit, whole);
    TooLongExactly(s, limit);
    WritableLines(open);
    SplitRendered(frames, RenderOpen(open.lines, ended), whole);
    SplitOpen(open.lines, ended, whole);
    GroupRendered(frames, Texts(open.lines));
    TextsAreNotBlank(open.lines);
    GroupNoBlank(Texts(open.lines));
    assert FrameTexts(frames) + [] == FrameTexts(frames);
  }

  /**
   * A reader that flushes at a clean end and makes of each frame what was sent in it delivers exactly
   * that; the frame the stream leaves open counts only when the stream was not broken off.
   */
  lemma {:induction false} FlushingReadsAll<M>(items: seq<Sent<M>>, last: Sent<M>, ended: bool, broken: bool,
                                               limit: nat, h: Frame -> FrameResult<M>)
    requires WritableFrames(FramesOf(items)) && WritableFrame(last.frame)
    requires AllReadAs(items, h) && ReadsAs(last, h)
    requires limit > 0 && !HasLongRun(Render(FramesOf(items)) + RenderOpen(last.frame.lines, ended), limit)
    ensures var s := Render(FramesOf(items)) + RenderOpen(last.frame.lines, ended);
            && Flushing(s, broken, limit, h) ==
               Outcome(MessagesOf(items) + (if broken || last.Noise? then [] else [last.msg]), false)
            && !SomeFails(Flushed(s, broken, limit), h)
  {
    hide Split, Render, RenderOpen, Texts, Group, HasLongRun, Deliver, AllReadAs, SomeFails, WritableFrame;
    var s := Render(FramesOf(items)) + RenderOpen(last.frame.lines, ended);
    RenderedOpen(FramesOf(items), last.frame, ended, limit);
    DeliverWritten(items, h);
    DeliverSnoc(FrameTexts(FramesOf(items)), Texts(last.frame.lines), h);
    DeliverFailsExactly(Flushed(s, broken, limit), h);
    assert MessagesOf(items) + [] == MessagesOf(items);
  }

  /** Whatever follows it, a frame that fails ends the stream, after exactly what was sent before it. */
  lemma {:induction false} FailedFrameEndsAll<M>(items: seq<Sent<M>>, bad: WireFrame, rest: string, broken: bool,
                                                 limit: nat, h: Frame -> FrameResult<M>)
    requires WritableFrames(FramesOf(items)) && WritableFrame(bad)
    requires AllReadAs(items, h) && h(Texts(bad.lines)) == Fail
    requires limit > 0 && !HasLongRun(Render(FramesOf(items) + [bad]), limit)
    ensures var s := Render(FramesOf(items) + [bad]) + rest;
            && Discarding(s, limit, h) == Flushing(s, broken, limit, h) == Outcome(MessagesOf(items), true)
            && SomeFails(Completed(s, limit), h) && SomeFails(Flushed(s, broken, limit), h)
  {
    hide Split, Render, Texts, Group, HasLongRun, Deliver, AllReadAs, SomeFails, FrameTexts, RenderLines, WritableFrame;
    var frames := FramesOf(items) + [bad];
    var first := Render(frames);
    var s := first + rest;
    SplitFits(first, limit, |first| + 1);
    RenderedFrames(frames, |first| + 1);
    DeliverWritten(items, h);
    FrameTextsSnoc(FramesOf(items), bad);
    DeliverSnoc(FrameTexts(FramesOf(items)), Texts(bad.lines), h);
    ClosedPrefix(frames, rest, limit);
    DeliverPrefix(Completed(first, limit), Completed(s, limit), h);
    DeliverPrefix(Completed(first, limit), Flushed(s, broken, limit), h);
    DeliverFailsExactly(Completed(s, limit), h);
    DeliverFailsExactly(Flushed(s, broken, limit), h);
  }

  lemma {:induction false} ClosedPrefix(frames: seq<WireFrame>, rest: string, limit: nat)
    requires frames != []
    ensures var first := Render(frames); Completed(first, limit) <= Completed(first + rest, limit)
  {
    hide Split, Render, Group, CutShape, Shortened;
    var first := Render(frames);
    var s := first + rest;
    RenderEndsInLineFeed(frames);
    assert s[..|first|] == first && s[|first| - 1] == first[|first| - 1];
    CutLines(s, |first|, limit);
    GroupPrefix(Split(first, limit).lines, Split(s, limit).lines);
  }

  lemma {:induction false} FrameEndsInLineFeed(lines: seq<Written>, crlf: bool)
    ensures var s := RenderLines(lines, crlf); s != "" && s[|s| - 1] == '\n'
  {
    if lines != [] {
      FrameEndsInLineFeed(lines[1..], crlf);
    }
  }

  lemma {:induction false} RenderEndsInLineFeed(frames: seq<WireFrame>)
    requires frames != []
    ensures var s := Render(frames); s != "" && s[|s| - 1] == '\n'
  {
    hide RenderLines;
    FrameEndsInLineFeed(frames[0].lines, frames[0].crlf);
    if frames[1..] != [] {
      RenderEndsInLineFeed(frames[1..]);
    }
  }

  /** A message frame whose data does not decode ends the subscription with a decoding error, at its own place. */
  lemma {:induction false} UndecodableMessageEndsAll<M(!new)>(items: seq<Sent<M>>, bad: WireFrame, rest: string,
                                                              broken: bool, encode: M -> string,
                                                              decode: string -> Option<M>)
    requires AllWellSent(items, encode) && Inverse(encode, decode) && WritableFrame(bad)
    requires Kind(bad.lines) == "" || Kind(bad.lines) == "message"
    requires var texts := DataTexts(bad.lines); texts != [] && texts[0] != "" && decode(Join(texts)) == None
    requires !HasLongRun(Render(FramesOf(items) + [bad]), Channel.CHANNEL_LIMIT)
    ensures var s := Render(FramesOf(items) + [bad]) + rest;
            && Channel.Messages(s, decode) == Outcome(MessagesOf(items), true)
            && TerminalError(Channel.Messages(s, decode), Split(s, Channel.CHANNEL_LIMIT).tooLong, broken) ==
               Some(DecodeFailed)
  {
    hide WellSent, Texts, Inverse, Render, HasLongRun, Split, Kind, DataTexts, Data, Channel.Hold, WritableFrame;
    SentFramesAreWritable(items, encode);
    forall i | 0 <= i < |items|
      ensures ReadsAs(items[i], Channel.Handler(decode))
    {
      ReadSent(items[i], encode, decode);
    }
    WritableLines(bad);
    HoldWritten(bad.lines);
    DataIsJoin(DataTexts(bad.lines));
    FailedFrameEndsAll(items, bad, rest, broken, Channel.CHANNEL_LIMIT, Channel.Handler(decode));
  }

  // There is a written form for every message.

  function OneLine(text: string): WireFrame {
    WireFrame([Written(DataLine(text, true), false)], false)
  }

  lemma {:induction false} OneLineSays(text: string)
    requires NoBreak(text)
    ensures WritableFrame(OneLine(text))
    ensures DataTexts(OneLine(text).lines) == [text] && Kind(OneLine(text).lines) == ""
  {
    var lines := OneLine(text).lines;
    assert lines[..0] == [];
  }

  /** A message whose encoding has no line breaks can be sent on one data line. */
  lemma {:induction false} AnyMessageCanBeSent<M>(m: M, encode: M -> string)
    requires NoBreak(encode(m)) && encode(m) != ""
    ensures WellSent(Message(OneLine(encode(m)), m), encode)
  {
    hide DataTexts, Kind, WritableFrame;
    OneLineSays(encode(m));
  }
}
