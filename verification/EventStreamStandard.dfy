/**
 * Sections 9.2.5 and 9.2.6 of the HTML Living Standard, written down on their own, and what the
 * channel reader makes of the same stream.
 */
module EventStreamStandard {
  import opened Text
  import opened Lines
  import opened Frames
  import opened Fields
  import opened Truncation
  import Channel = ChannelReader

  /** The first carriage return or line feed, or `|s|`. */
  function LineEnd(s: string): (i: nat)
    ensures i <= |s| && forall k :: 0 <= k < i ==> s[k] != '\n' && s[k] != '\r'
    ensures i < |s| ==> s[i] == '\n' || s[i] == '\r'
  {
    if s == "" || s[0] == '\n' || s[0] == '\r' then 0 else LineEnd(s[1..]) + 1
  }

  /** The ended lines of a stream: CRLF, a lone LF and a lone CR end a line. */
  function EndedLines(s: string): seq<string>
    decreases |s|
  {
    var i := LineEnd(s);
    if i == |s| then []
    else
      var next := if s[i] == '\r' && i + 1 < |s| && s[i + 1] == '\n' then i + 2 else i + 1;
      [s[..i]] + EndedLines(s[next..])
  }

  datatype Dispatched = Dispatched(kind: string, data: string)

  /** The event type and data buffers, and the events dispatched so far. */
  datatype Interpreter = Interpreter(kind: string, data: string, dispatched: seq<Dispatched>)

  function Process(st: Interpreter, line: string): Interpreter {
    if line == "" then
      if st.data == "" then st.(kind := "")
      else
        var kind, data := if st.kind == "" then "message" else st.kind, st.data[..|st.data| - 1];
        Interpreter("", "", st.dispatched + [Dispatched(kind, data)])
    else if line[0] == ':' then st
    else
      match NameOf(Field(line))
      case EventField => st.(kind := Value(line))
      case DataField => st.(data := st.data + Value(line) + "\n")
      case _ => st
  }

  /** Lines processed in order; at the end of the stream what is still in the buffers is discarded. */
  function Interpret(lines: seq<string>): Interpreter {
    if lines == [] then Interpreter("", "", [])
    else Process(Interpret(lines[..|lines| - 1]), lines[|lines| - 1])
  }

  function StripLineFeeds(s: string): string {
    if s != "" && s[0] == '\n' then StripLineFeeds(s[1..]) else s
  }

  /** The data of the dispatched message events, without leading line feeds and without those left empty. */
  function MessageData(events: seq<Dispatched>): seq<string> {
    if events == [] then []
    else
      var before, e := MessageData(events[..|events| - 1]), events[|events| - 1];
      if e.kind == "message" && StripLineFeeds(e.data) != "" then before + [StripLineFeeds(e.data)] else before
  }

  lemma {:induction false} MessageDataSnoc(events: seq<Dispatched>, e: Dispatched)
    ensures MessageData(events + [e]) ==
            if e.kind == "message" && StripLineFeeds(e.data) != ""
            then MessageData(events) + [StripLineFeeds(e.data)] else MessageData(events)
  {
    assert (events + [e])[..|events|] == events;
  }

  // The data buffer and the reader's accumulator.

  /** The reader's data for a data buffer: without the last line feed and without leading ones. */
  function DataFor(buffer: string): string {
    if buffer == "" then "" else StripLineFeeds(buffer[..|buffer| - 1])
  }

  lemma {:induction false} StripAppend(s: string, x: string)
    ensures StripLineFeeds(s + x) == if StripLineFeeds(s) == "" then StripLineFeeds(x) else StripLineFeeds(s) + x
  {
    if s == "" {
      assert s + x == x;
    } else if s[0] == '\n' {
      assert (s + x)[1..] == s[1..] + x;
      StripAppend(s[1..], x);
    }
  }

  lemma {:induction false} BufferSnoc(buffer: string, value: string)
    requires buffer != "" ==> buffer[|buffer| - 1] == '\n'
    requires '\n' !in value
    ensures DataFor(buffer + value + "\n") == AppendLine(DataFor(buffer), value)
  {
    assert (buffer + value + "\n")[..|buffer + value|] == buffer + value;
    if buffer == "" {
      assert buffer + value == value;
    } else {
      var start := buffer[..|buffer| - 1];
      assert buffer + value == start + ("\n" + value);
      StripAppend(start, "\n" + value);
      assert ("\n" + value)[1..] == value;
      assert DataFor(buffer) + ("\n" + value) == DataFor(buffer) + "\n" + value;
    }
  }

  /** The interpreter and the reader side by side, line by line. */
  ghost predicate Agree(lines: seq<string>) {
    var st, g := Interpret(lines), Group(lines);
    && (st.data != "" ==> st.data[|st.data| - 1] == '\n')
    && Channel.Hold(g.pending) == Channel.Held(DataFor(st.data), st.kind)
    && Channel.Payloads(g.complete) == MessageData(st.dispatched)
  }

  lemma {:induction false} AgreeSnoc(lines: seq<string>, line: string)
    requires Agree(lines) && '\n' !in line
    ensures Agree(lines + [line])
  {
    hide Agree;
    if line == "" {
      AgreeAtBlank(lines);
    } else {
      AgreeAtField(lines, line);
    }
  }

  lemma {:induction false} AgreeAtBlank(lines: seq<string>)
    requires Agree(lines)
    ensures Agree(lines + [""])
  {
    hide Channel.Payloads, MessageData, Group, Interpret, StripLineFeeds, Field, Value;
    InterpretStep(lines, "", lines + [""]);
    GroupSnoc(lines, "");
    var g, st := Group(lines), Interpret(lines);
    Channel.PayloadsSnoc(g.complete, g.pending);
    if st.data != "" {
      MessageDataSnoc(st.dispatched, Dispatched(if st.kind == "" then "message" else st.kind,
          st.data[..|st.data| - 1]));
    }
  }

  lemma {:induction false} AgreeAtField(lines: seq<string>, line: string)
    requires Agree(lines) && '\n' !in line && line != ""
    ensures Agree(lines + [line])
  {
    hide Channel.Payloads, MessageData, Group, Interpret, DataFor, Field, Value, Channel.Hold, AppendLine;
    InterpretStep(lines, line, lines + [line]);
    GroupSnoc(lines, line);
    var g, st := Group(lines), Interpret(lines);
    Channel.HoldSnoc(g.pending, line);
    ValueHasNoLineFeed(line);
    BufferSnoc(st.data, Value(line));
    CommentHasNoName(line);
  }

  lemma {:induction false} InterpretStep(before: seq<string>, line: string, lines: seq<string>)
    requires lines == before + [line]
    ensures Interpret(lines) == Process(Interpret(before), line)
  {
    assert (before + [line])[..|before|] == before;
  }

  lemma {:induction false} ValueHasNoLineFeed(line: string)
    requires '\n' !in line
    ensures '\n' !in Value(line)
  {
  }

  lemma {:induction false} CommentHasNoName(line: string)
    ensures line != "" && line[0] == ':' ==> NameOf(Field(line)) == OtherField
  {
  }

  lemma {:induction false} AgreeOnLines(lines: seq<string>)
    requires forall i :: 0 <= i < |lines| ==> '\n' !in lines[i]
    ensures Agree(lines)
  {
    if lines == [] {
    } else {
      var n := |lines| - 1;
      AgreeOnLines(lines[..n]);
      AgreeSnoc(lines[..n], lines[n]);
      assert lines == lines[..n] + [lines[n]];
    }
  }

  // The two ways to split lines.

  lemma {:induction false} EndedLinesHaveNoLineFeed(s: string)
    ensures forall i :: 0 <= i < |EndedLines(s)| ==> '\n' !in EndedLines(s)[i]
    decreases |s|
  {
    var i := LineEnd(s);
    if i < |s| {
      var next := if s[i] == '\r' && i + 1 < |s| && s[i + 1] == '\n' then i + 2 else i + 1;
      EndedLinesHaveNoLineFeed(s[next..]);
    }
  }

  /** Where carriage returns occur only in line ends, both splits agree, but for a last line without an end. */
  lemma {:induction false} SameLines(s: string, limit: nat)
    requires ReturnsOnlyInLineEnds(s) && limit > |s|
    ensures var a, b := Split(s, limit).lines, EndedLines(s);
            a == b || (a != [] && a[..|a| - 1] == b && a[|a| - 1] != "")
    decreases |s|
  {
    hide Split, EndedLines;
    var i, e := IndexOf(s, '\n'), LineEnd(s);
    FirstEnds(s);
    if i < |s| {
      var rest := s[i + 1..];
      assert forall j :: 0 <= j < |rest| ==> rest[j] == s[j + i + 1];
      SameLines(rest, limit);
      SplitFirstLine(s, i, e, limit);
      var a, b := Split(rest, limit).lines, EndedLines(rest);
      if a != b {
        assert ([s[..e]] + a)[..|a|] == [s[..e]] + a[..|a| - 1];
      }
    } else {
      UnendedLine(s, e, limit);
    }
  }

  /** The first line feed and the first line end, where carriage returns are all in line ends. */
  lemma {:induction false} FirstEnds(s: string)
    requires ReturnsOnlyInLineEnds(s)
    ensures var i, e := IndexOf(s, '\n'), LineEnd(s);
            e == i || (e + 1 == i && s[e] == '\r')
  {
    var i, e := IndexOf(s, '\n'), LineEnd(s);
    if e < i {
      assert s[e] == '\r';
      if e + 1 < |s| {
        assert s[e + 1] == '\n';
      }
    }
  }

  lemma {:induction false} UnendedLine(s: string, e: nat, limit: nat)
    requires IndexOf(s, '\n') == |s| < limit && e == LineEnd(s)
    requires e == |s| || (e + 1 == |s| && s[e] == '\r')
    ensures var a, b := Split(s, limit).lines, EndedLines(s);
            a == b || (a != [] && a[..|a| - 1] == b && a[|a| - 1] != "")
  {
    if e < |s| {
      assert s[e + 1..] == "";
    }
  }

  lemma {:induction false} SplitFirstLine(s: string, i: nat, e: nat, limit: nat)
    requires i == IndexOf(s, '\n') < |s| && i < limit && e == LineEnd(s)
    requires e == i || (e + 1 == i && s[e] == '\r')
    ensures Split(s, limit).lines == [s[..e]] + Split(s[i + 1..], limit).lines
    ensures EndedLines(s) == [s[..e]] + EndedLines(s[i + 1..])
  {
    if e == i {
      assert DropCR(s[..i]) == s[..i];
    } else {
      assert s[..i][..e] == s[..e];
    }
  }

  /**
   * On every stream whose carriage returns are all in line ends, what the channel reader hands to the
   * decoder is exactly the data of the standard's message events, without leading line feeds and with
   * those without any other data left out.
   */
  lemma {:induction false} PayloadsFollowStandard(s: string, limit: nat)
    requires ReturnsOnlyInLineEnds(s) && limit > 0 && !HasLongRun(s, limit)
    ensures Channel.Payloads(Completed(s, limit)) == MessageData(Interpret(EndedLines(s)).dispatched)
  {
    hide Split, Group, Channel.Payloads, MessageData, EndedLines, Interpret;
    var whole := |s| + 1;
    TooLongExactly(s, limit);
    TooLongExactly(s, whole);
    if limit <= whole {
      LimitLines(s, limit, whole);
    } else {
      LimitLines(s, whole, limit);
    }
    SameLines(s, whole);
    var a, b := Split(s, limit).lines, EndedLines(s);
    if a != b {
      NonBlankLast(a);
    }
    EndedLinesHaveNoLineFeed(s);
    AgreeOnLines(b);
  }

  /** So it delivers what decoding that data in order gives, up to the first failure. */
  lemma {:induction false} ReaderFollowsStandard<M>(s: string, limit: nat, decode: string -> Option<M>)
    requires ReturnsOnlyInLineEnds(s) && limit > 0 && !HasLongRun(s, limit)
    ensures Discarding(s, limit, Channel.Handler(decode)) ==
            Channel.DecodeInOrder(MessageData(Interpret(EndedLines(s)).dispatched), decode)
  {
    hide Deliver, Channel.Payloads, MessageData, EndedLines, Interpret, Channel.DecodeInOrder, Channel.Handler;
    PayloadsFollowStandard(s, limit);
    Channel.DeliverDecodesPayloads(Completed(s, limit), decode);
  }

  /** The data of the dispatched message events as the standard has it. */
  function StandardData(events: seq<Dispatched>): seq<string> {
    if events == [] then []
    else
      var before, e := StandardData(events[..|events| - 1]), events[|events| - 1];
      if e.kind == "message" then before + [e.data] else before
  }

  /** A message event whose data the reader changes or drops. */
  predicate Altered(e: Dispatched) {
    e.kind == "message" && (e.data == "" || e.data[0] == '\n')
  }

  function Size(data: seq<string>): nat {
    if data == [] then 0 else Size(data[..|data| - 1]) + |data[|data| - 1]| + 1
  }

  lemma {:induction false} SizeSnoc(data: seq<string>, d: string)
    ensures Size(data + [d]) == Size(data) + |d| + 1
  {
    assert (data + [d])[..|data|] == data;
  }

  lemma {:induction false} StripShortens(s: string)
    ensures |StripLineFeeds(s)| <= |s|
    ensures StripLineFeeds(s) == s <==> s == "" || s[0] != '\n'
    ensures s != "" && s[0] == '\n' ==> |StripLineFeeds(s)| < |s|
  {
    if s != "" && s[0] == '\n' {
      StripShortens(s[1..]);
    }
  }

  predicate NoneAltered(events: seq<Dispatched>) {
    forall i :: 0 <= i < |events| ==> !Altered(events[i])
  }

  lemma {:induction false} StandardDataSnoc(events: seq<Dispatched>, e: Dispatched)
    ensures StandardData(events + [e]) ==
            if e.kind == "message" then StandardData(events) + [e.data] else StandardData(events)
    ensures NoneAltered(events + [e]) <==> NoneAltered(events) && !Altered(e)
  {
    assert (events + [e])[..|events|] == events;
    assert forall i :: 0 <= i < |events| ==> (events + [e])[i] == events[i];
    assert (events + [e])[|events|] == e;
  }

  lemma {:induction false} MessageDataIsSmaller(events: seq<Dispatched>)
    ensures Size(MessageData(events)) <= Size(StandardData(events))
    ensures if NoneAltered(events) then MessageData(events) == StandardData(events)
            else Size(MessageData(events)) < Size(StandardData(events))
  {
    if events != [] {
      hide StripLineFeeds, MessageData, StandardData, Size, NoneAltered;
      var n := |events| - 1;
      var e := events[n];
      MessageDataIsSmaller(events[..n]);
      StripShortens(e.data);
      SizeSnoc(MessageData(events[..n]), StripLineFeeds(e.data));
      SizeSnoc(StandardData(events[..n]), e.data);
      assert events == events[..n] + [e];
      MessageDataSnoc(events[..n], e);
      StandardDataSnoc(events[..n], e);
    }
  }

  /**
   * The reader hands on exactly the standard's data if and only if no message event has empty data or
   * data starting with a line feed.
   */
  lemma {:induction false} ReaderIsStandardExactly(s: string, limit: nat)
    requires ReturnsOnlyInLineEnds(s) && limit > 0 && !HasLongRun(s, limit)
    ensures var events := Interpret(EndedLines(s)).dispatched;
            Channel.Payloads(Completed(s, limit)) == StandardData(events) <==>
            NoneAltered(events)
  {
    hide NoneAltered, Channel.Payloads, MessageData, EndedLines, Interpret, Size, StandardData;
    PayloadsFollowStandard(s, limit);
    MessageDataIsSmaller(Interpret(EndedLines(s)).dispatched);
  }

  // A stream on which the two differ.

  lemma {:induction false} EndedLine(line: string, rest: string)
    requires '\n' !in line && '\r' !in line
    ensures EndedLines(line + "\n" + rest) == [line] + EndedLines(rest)
  {
    var s := line + "\n" + rest;
    assert s[|line|] == '\n';
    LineEndUnique(s, |line|);
    assert s[|line| + 1..] == rest && s[..|line|] == line;
  }

  /** A lone carriage return ends a line, and one with a line feed after it ends it once. */
  lemma {:induction false} EndedByReturn(line: string, rest: string)
    requires '\n' !in line && '\r' !in line
    ensures EndedLines(line + "\r\n" + rest) == [line] + EndedLines(rest)
    ensures !("\n" <= rest) ==> EndedLines(line + "\r" + rest) == [line] + EndedLines(rest)
  {
    ReturnEnds(line, "\r\n" + rest);
    ReturnEnds(line, "\r" + rest);
    assert line + "\r\n" + rest == line + ("\r\n" + rest) && line + "\r" + rest == line + ("\r" + rest);
    assert (line + ("\r\n" + rest))[|line| + 2..] == rest && (line + ("\r" + rest))[|line| + 1..] == rest;
  }

  lemma {:induction false} ReturnEnds(line: string, tail: string)
    requires '\n' !in line && '\r' !in line && "\r" <= tail
    ensures LineEnd(line + tail) == |line|
    ensures (line + tail)[..|line|] == line && forall i :: 0 <= i < |tail| ==> (line + tail)[|line| + i] == tail[i]
  {
    assert (line + tail)[|line|] == tail[0];
  }

  lemma {:induction false} LineEndUnique(s: string, i: nat)
    requires i < |s| && s[i] == '\n' && forall k :: 0 <= k < i ==> s[k] != '\n' && s[k] != '\r'
    ensures LineEnd(s) == i
  {
  }

  lemma {:induction false} NoEndedLines()
    ensures EndedLines("") == [] && Interpret([]) == Interpreter("", "", [])
  {
  }

  /** A stream on which the reader's data is not the standard's: a line feed is lost, and an event. */
  lemma {:induction false} LeadingEmptyLineIsLost()
    ensures var s := "data:\ndata: x\n\ndata:\n\n";
            && Interpret(EndedLines(s)).dispatched == [Dispatched("message", "\nx"), Dispatched("message", "")]
            && Channel.Payloads(Completed(s, Channel.CHANNEL_LIMIT)) == ["x"]
  {
    hide EndedLines, Interpret, Completed, Channel.Payloads, MessageData;
    var second := "data:" + "\n" + ("" + "\n" + "");
    var s := "data:" + "\n" + ("data: x" + "\n" + ("" + "\n" + second));
    assert s == "data:\ndata: x\n\ndata:\n\n";
    EmptyThenX(second);
    EmptyAlone();
    InterpretFive();
    PayloadsFollowStandard(s, Channel.CHANNEL_LIMIT);
    StripsToX();
  }

  lemma {:induction false} EmptyThenX(rest: string)
    ensures EndedLines("data:" + "\n" + ("data: x" + "\n" + ("" + "\n" + rest))) ==
            ["data:", "data: x", ""] + EndedLines(rest)
  {
    hide EndedLines;
    EndedLine("data:", "data: x" + "\n" + ("" + "\n" + rest));
    EndedLine("data: x", "" + "\n" + rest);
    EndedLine("", rest);
  }

  lemma {:induction false} EmptyAlone()
    ensures EndedLines("data:" + "\n" + ("" + "\n" + "")) == ["data:", ""]
  {
    hide EndedLines;
    EndedLine("data:", "" + "\n" + "");
    EndedLine("", "");
    NoEndedLines();
  }

  lemma {:induction false} ProcessData(st: Interpreter, line: string, rest: string)
    requires line == "data" + ":" + rest
    ensures Process(st, line) == Interpreter(st.kind, st.data + TrimOneSpace(rest) + "\n", st.dispatched)
  {
    hide Field, Value;
    FieldAndValueOf("data", rest);
  }

  lemma {:induction false} ProcessBlank(data: string, before: seq<Dispatched>)
    ensures Process(Interpreter("", data + "\n", before), "") ==
            Interpreter("", "", before + [Dispatched("message", data)])
  {
  }

  lemma {:induction false} InterpretFive()
    ensures Interpret(["data:", "data: x", ""] + ["data:", ""]).dispatched ==
            [Dispatched("message", "\nx"), Dispatched("message", "")]
  {
    hide Interpret, Process;
    var one, two, three := ["data:"], ["data:", "data: x"], ["data:", "data: x", ""];
    var first := Dispatched("message", "\nx");
    InterpretFirst();
    InterpretStep(three, "data:", three + one);
    ProcessData(Interpreter("", "", [first]), "data:", "");
    assert "" + TrimOneSpace("") + "\n" == "" + "\n";
    InterpretStep(three + one, "", three + ["data:", ""]);
    ProcessBlank("", [first]);
    assert [first] + [Dispatched("message", "")] == [first, Dispatched("message", "")];
  }

  lemma {:induction false} InterpretFirst()
    ensures Interpret(["data:", "data: x", ""]) == Interpreter("", "", [Dispatched("message", "\nx")])
  {
    hide Interpret, Process;
    var one, two, three := ["data:"], ["data:", "data: x"], ["data:", "data: x", ""];
    NoEndedLines();
    InterpretStep([], "data:", one);
    ProcessData(Interpreter("", "", []), "data:", "");
    assert "" + TrimOneSpace("") + "\n" == "\n";
    InterpretStep(one, "data: x", two);
    ProcessData(Interpreter("", "\n", []), "data: x", " x");
    assert TrimOneSpace(" x") == "x" && "\n" + "x" == "\nx";
    InterpretStep(two, "", three);
    ProcessBlank("\nx", []);
    assert [] + [Dispatched("message", "\nx")] == [Dispatched("message", "\nx")];
  }

  lemma {:induction false} StripsToX()
    ensures MessageData([Dispatched("message", "\nx"), Dispatched("message", "")]) == ["x"]
  {
    hide MessageData, StripLineFeeds;
    var x, empty := Dispatched("message", "\nx"), Dispatched("message", "");
    NoMessageData();
    MessageDataSnoc([], x);
    assert [] + [x] == [x];
    MessageDataSnoc([x], empty);
    assert [x] + [empty] == [x, empty] && [] + ["x"] == ["x"];
  }

  lemma {:induction false} NoMessageData()
    ensures MessageData([]) == []
    ensures StripLineFeeds("\nx") == "x" && StripLineFeeds("") == ""
  {
    assert "\nx"[1..] == "x";
  }
}
