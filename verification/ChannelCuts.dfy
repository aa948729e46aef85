/** What the channel reader hands on of a stream that was cut at an arbitrary byte, or has a line too long, exactly. */
module ChannelCuts {
  import opened Text
  import opened Lines
  import opened Frames
  import opened Truncation
  import opened ChannelReader

  /** The text in the frame that is open where a cut falls, if it would reach the decoder. */
  function OpenPayload(t: string): Option<string> {
    Payload(Hold(Group(Split(t, CHANNEL_LIMIT).lines).pending))
  }

  function PayloadsOf(s: string): seq<string> {
    Payloads(Completed(s, CHANNEL_LIMIT))
  }

  function AsText(d: string): Option<string> {
    Some(d)
  }

  /** Taken as text, nothing fails and the events are the payloads. */
  lemma {:induction false} PayloadsAreEvents(s: string)
    ensures Discarding(s, CHANNEL_LIMIT, Handler(AsText)) == Outcome(PayloadsOf(s), false)
  {
    hide Deliver, Payloads, Completed, DecodeInOrder;
    DeliverDecodesPayloads(Completed(s, CHANNEL_LIMIT), AsText);
    TextDecodes(PayloadsOf(s));
  }

  lemma {:induction false} TextDecodes(payloads: seq<string>)
    ensures DecodeInOrder(payloads, AsText) == Outcome(payloads, false)
  {
    hide DecodeInOrder;
    if payloads == [] {
      DecodeNothing();
    } else {
      var n := |payloads| - 1;
      TextDecodes(payloads[..n]);
      assert payloads == payloads[..n] + [payloads[n]];
      DecodeSnoc(payloads[..n], payloads[n], AsText);
    }
  }

  lemma {:induction false} DecodeNothing()
    ensures DecodeInOrder([], AsText) == Outcome([], false)
  {
  }

  /**
   * Which texts reach the decoder: of a cut stream they are a prefix of the full stream's, unless the cut
   * falls right after a stray carriage return, the open frame has a text, and the full stream's next
   * text is not that one.
   */
  lemma {:induction false} PayloadsOfACut(s: string, k: nat)
    requires k <= |s|
    ensures PayloadsOf(s[..k]) <= PayloadsOf(s) <==>
            !(AfterStray(s, k, CHANNEL_LIMIT) &&
              var before, open, all := PayloadsOf(s[..k - 1]), OpenPayload(s[..k - 1]), PayloadsOf(s);
              open.Some? && (|all| <= |before| || all[|before|] != open.value))
  {
    hide PayloadsOf, AfterStray, Discarding, Hold, Payload;
    DiscardingIsSafeExactly(s, k, CHANNEL_LIMIT, Handler(AsText));
    PayloadsAreEvents(s[..k]);
    PayloadsAreEvents(s);
    if AfterStray(s, k, CHANNEL_LIMIT) {
      StrayCompletes(s, k, CHANNEL_LIMIT);
      PayloadsAreEvents(s[..k - 1]);
    }
  }

  /** Which messages are delivered, likewise; a failure before the cut makes every longer stream the same. */
  lemma {:induction false} MessagesOfACut<M>(s: string, k: nat, decode: string -> Option<M>)
    requires k <= |s|
    ensures Messages(s[..k], decode).events <= Messages(s, decode).events <==>
            !(AfterStray(s, k, CHANNEL_LIMIT) &&
              var before, open, all := Messages(s[..k - 1], decode), OpenPayload(s[..k - 1]), Messages(s, decode);
              && !before.failed && open.Some? && decode(open.value).Some?
              && (|all.events| <= |before.events| || Some(all.events[|before.events|]) != decode(open.value)))
  {
    hide AfterStray, Discarding, Hold, Payload, Split, Group;
    DiscardingIsSafeExactly(s, k, CHANNEL_LIMIT, Handler(decode));
    if AfterStray(s, k, CHANNEL_LIMIT) {
      StrayCompletes(s, k, CHANNEL_LIMIT);
    }
  }

  /** A stream and a cut for which a message is delivered that the full stream does not have. */
  lemma {:induction false} StrayReturnDeliversEarly<M>(decode: string -> Option<M>)
    ensures var s := "data:1\n\r2";
            && PayloadsOf(s[..8]) == ["1"] && PayloadsOf(s) == []
            && Messages(s, decode) == Outcome([], false)
            && (decode("1").Some? ==> Messages(s[..8], decode) == Outcome([decode("1").value], false))
  {
    hide Split, Group, Payloads, DecodeInOrder;
    var s := "data:1\n\r2";
    SplitTwoLines("data:1", "\r", CHANNEL_LIMIT);
    SplitTwoLines("data:1", "\r2", CHANNEL_LIMIT);
    assert s[..8] == "data:1" + "\n" + "\r" && s == "data:1" + "\n" + "\r2";
    GroupOfNothing();
    GroupSnoc([], "data:1");
    GroupSnoc(["data:1"], "");
    GroupSnoc(["data:1"], "\r2");
    assert [] + ["data:1"] == ["data:1"];
    assert ["data:1"] + [""] == ["data:1", ""] && ["data:1"] + ["\r2"] == ["data:1", "\r2"];
    DeliverDecodesPayloads(Completed(s, CHANNEL_LIMIT), decode);
    DeliverDecodesPayloads(Completed(s[..8], CHANNEL_LIMIT), decode);
    OnePayload(decode);
  }

  lemma {:induction false} OnePayload<M>(decode: string -> Option<M>)
    ensures Payloads([]) == [] && Payloads([["data:1"]]) == ["1"]
    ensures DecodeInOrder([], decode) == Outcome([], false)
    ensures decode("1").Some? ==> DecodeInOrder(["1"], decode) == Outcome([decode("1").value], false)
  {
    hide Payloads, Hold, DecodeInOrder;
    NothingHeld();
    PayloadsSnoc([], ["data:1"]);
    assert [] + [["data:1"]] == [["data:1"]] && [] + ["1"] == ["1"];
    DecodeOne("1", decode);
  }

  lemma {:induction false} DecodeOne<M>(d: string, decode: string -> Option<M>)
    ensures DecodeInOrder([], decode) == Outcome([], false)
    ensures decode(d).Some? ==> DecodeInOrder([d], decode) == Outcome([decode(d).value], false)
  {
    assert [d][..0] == [];
  }

  lemma {:induction false} NothingHeld()
    ensures Payloads([]) == [] && Hold(["data:1"]) == Held("1", "")
  {
    hide Payloads, Field, Value;
    FieldAndValueOf("data", "1");
    assert "data" + ":" + "1" == "data:1" && ["data:1"][..0] == [];
    NoPayloads();
  }

  lemma {:induction false} NoPayloads()
    ensures Payloads([]) == []
  {
  }

  /** A line of exactly 16 MiB ends the stream with an error, whatever follows; with one byte less it is read. */
  lemma {:induction false} LimitItselfIsTooLong<M>(line: string, rest: string, broken: bool,
                                                   decode: string -> Option<M>)
    requires '\n' !in line
    ensures var s := line + "\n" + rest;
            var terminal := TerminalError(Messages(s, decode), Split(s, CHANNEL_LIMIT).tooLong, broken);
            && (|line| == 16777216 ==> Messages(s, decode) == Outcome([], false) && terminal == Some(LineTooLong))
            && (|line| == 16777215 ==>
                  Split(s, CHANNEL_LIMIT).lines == [DropCR(line)] + Split(rest, CHANNEL_LIMIT).lines)
  {
    hide Split;
    LimitCountsNoLineFeed(line, rest, CHANNEL_LIMIT);
  }
}
