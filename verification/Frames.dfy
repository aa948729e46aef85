/**
 * Frames: the runs of lines between blank lines, and the two ways the readers turn a stream of
 * frames into events. What a frame means is the handler's business; everything here holds for
 * every handler.
 */
module Frames {
  import opened Text
  import opened Lines

  type Frame = seq<string>

  /** The frames that a blank line completed, and the lines after the last blank line. */
  datatype Framed = Framed(complete: seq<Frame>, pending: Frame)

  function Group(lines: seq<string>): Framed {
    if lines == [] then Framed([], [])
    else
      var before, line := Group(lines[..|lines| - 1]), lines[|lines| - 1];
      if line == "" then Framed(before.complete + [before.pending], [])
      else Framed(before.complete, before.pending + [line])
  }

  /** What one frame comes to: nothing, one event, or the end of the stream with a decoding error. */
  datatype FrameResult<+E> = Skip | Emit(event: E) | Fail

  datatype Outcome<+E> = Outcome(events: seq<E>, failed: bool)

  /** The events of a list of frames, in order, up to the first frame that fails. */
  function Deliver<E>(frames: seq<Frame>, h: Frame -> FrameResult<E>): Outcome<E> {
    if frames == [] then Outcome([], false)
    else
      var before := Deliver(frames[..|frames| - 1], h);
      if before.failed then before
      else
        match h(frames[|frames| - 1])
        case Skip => before
        case Emit(e) => Outcome(before.events + [e], false)
        case Fail => Outcome(before.events, true)
  }

  /** Every event the frames would give one by one, failing frames left out. */
  function EventsOf<E>(frames: seq<Frame>, h: Frame -> FrameResult<E>): seq<E> {
    if frames == [] then []
    else
      EventsOf(frames[..|frames| - 1], h) +
      match h(frames[|frames| - 1])
      case Emit(e) => [e]
      case _ => []
  }

  /** The frames a reader sees that discards what the end of the stream leaves unfinished. */
  function Completed(s: string, limit: nat): seq<Frame> {
    Group(Split(s, limit).lines).complete
  }

  /** The frames a reader sees that flushes the unfinished frame, but only at a clean end. */
  function Flushed(s: string, broken: bool, limit: nat): seq<Frame> {
    var scan := Split(s, limit);
    var g := Group(scan.lines);
    if scan.tooLong || broken then g.complete else g.complete + [g.pending]
  }

  function Discarding<E>(s: string, limit: nat, h: Frame -> FrameResult<E>): Outcome<E> {
    Deliver(Completed(s, limit), h)
  }

  function Flushing<E>(s: string, broken: bool, limit: nat, h: Frame -> FrameResult<E>): Outcome<E> {
    Deliver(Flushed(s, broken, limit), h)
  }

  /** Why a stream ended with an error. */
  datatype StreamError = DecodeFailed | LineTooLong | BodyBroken | Cancelled

  /** The error of an uncancelled stream: a failed frame first, then what stopped the scan. */
  function TerminalError<E>(outcome: Outcome<E>, tooLong: bool, broken: bool): Option<StreamError> {
    if outcome.failed then Some(DecodeFailed)
    else if tooLong then Some(LineTooLong)
    else if broken then Some(BodyBroken)
    else None
  }

  // One more line, one more frame.

  lemma {:induction false} GroupSnoc(lines: seq<string>, line: string)
    ensures var before := Group(lines);
            Group(lines + [line]) ==
            if line == "" then Framed(before.complete + [before.pending], [])
            else Framed(before.complete, before.pending + [line])
  {
    assert (lines + [line])[..|lines|] == lines;
  }

  lemma {:induction false} DeliverSnoc<E>(frames: seq<Frame>, frame: Frame, h: Frame -> FrameResult<E>)
    ensures var before := Deliver(frames, h);
            Deliver(frames + [frame], h) ==
            if before.failed then before
            else match h(frame)
                 case Skip => before
                 case Emit(e) => Outcome(before.events + [e], false)
                 case Fail => Outcome(before.events, true)
    ensures EventsOf(frames + [frame], h) ==
            EventsOf(frames, h) + match h(frame) case Emit(e) => [e] case _ => []
  {
    assert (frames + [frame])[..|frames|] == frames;
  }

  // More lines never take back a completed frame, more frames never take back an event.

  lemma {:induction false} GroupPrefix(a: seq<string>, b: seq<string>)
    requires a <= b
    ensures Group(a).complete <= Group(b).complete
  {
    if a == b {
    } else {
      assert a <= b[..|b| - 1];
      GroupPrefix(a, b[..|b| - 1]);
    }
  }

  lemma {:induction false} DeliverPrefix<E>(a: seq<Frame>, b: seq<Frame>, h: Frame -> FrameResult<E>)
    requires a <= b
    ensures Deliver(a, h).events <= Deliver(b, h).events
    ensures Deliver(a, h).failed ==> Deliver(a, h) == Deliver(b, h)
  {
    if a == b {
    } else {
      assert a <= b[..|b| - 1];
      DeliverPrefix(a, b[..|b| - 1], h);
    }
  }

  /** What is delivered is a prefix of the events the frames give one by one. */
  lemma {:induction false} DeliverIsPrefixOfEvents<E>(frames: seq<Frame>, h: Frame -> FrameResult<E>)
    ensures Deliver(frames, h).events <= EventsOf(frames, h)
    ensures !Deliver(frames, h).failed ==> Deliver(frames, h).events == EventsOf(frames, h)
  {
    if frames == [] {
    } else {
      DeliverIsPrefixOfEvents(frames[..|frames| - 1], h);
    }
  }

  /** The events of the frames that the first `n` lines of a stream complete. */
  function DeliveredBy<E>(s: string, n: nat, limit: nat, h: Frame -> FrameResult<E>): seq<E> {
    var lines := Split(s, limit).lines;
    Deliver(Group(if n <= |lines| then lines[..n] else lines).complete, h).events
  }

  lemma {:induction false} DeliveredEarlier<E>(seen: seq<string>, events: seq<E>, s: string, n: nat, limit: nat,
                                               h: Frame -> FrameResult<E>)
    requires Delivered(seen, events, h) && seen <= Split(s, limit).lines && n <= |seen|
    ensures DeliveredBy(s, n, limit, h) <= events
  {
    hide Split, Group, Deliver;
    var first := Split(s, limit).lines[..n];
    assert first == seen[..n] <= seen;
    GroupPrefix(first, seen);
    DeliverPrefix(Group(first).complete, Group(seen).complete, h);
  }

  // Failures and the error a stream ends with.

  ghost predicate SomeFails<E>(frames: seq<Frame>, h: Frame -> FrameResult<E>) {
    exists i :: 0 <= i < |frames| && h(frames[i]) == Fail
  }

  /** The first frame that fails ends the delivery: the events before it are delivered, none after it. */
  lemma {:induction false} FirstFailureEnds<E>(frames: seq<Frame>, n: nat, h: Frame -> FrameResult<E>)
    requires n < |frames| && h(frames[n]) == Fail && !SomeFails(frames[..n], h)
    ensures Deliver(frames, h) == Outcome(EventsOf(frames[..n], h), true)
  {
    hide Deliver, EventsOf;
    var first := frames[..n];
    DeliverFailsExactly(first, h);
    DeliverIsPrefixOfEvents(first, h);
    DeliverSnoc(first, frames[n], h);
    DeliverPrefix(first + [frames[n]], frames, h);
  }

  lemma {:induction false} DeliverFailsExactly<E>(frames: seq<Frame>, h: Frame -> FrameResult<E>)
    ensures Deliver(frames, h).failed <==> SomeFails(frames, h)
  {
    if frames != [] {
      var n := |frames| - 1;
      DeliverFailsExactly(frames[..n], h);
      assert forall i :: 0 <= i < n ==> frames[..n][i] == frames[i];
      if SomeFails(frames, h) {
        var i :| 0 <= i < |frames| && h(frames[i]) == Fail;
        assert i == n || frames[..n][i] == frames[i];
      }
    }
  }

  /** The error of an uncancelled stream, from its frames and its bytes. */
  lemma {:induction false} TerminalErrorIs<E>(frames: seq<Frame>, h: Frame -> FrameResult<E>, s: string, limit: nat,
                                              broken: bool)
    requires limit > 0
    ensures TerminalError(Deliver(frames, h), Split(s, limit).tooLong, broken) ==
            if SomeFails(frames, h) then Some(DecodeFailed)
            else if HasLongRun(s, limit) then Some(LineTooLong)
            else if broken then Some(BodyBroken)
            else None
  {
    hide Deliver, Split, HasLongRun, SomeFails;
    DeliverFailsExactly(frames, h);
    TooLongExactly(s, limit);
  }

  // Where a reader stands after `seen` lines when no frame of them failed.

  ghost predicate Delivered<E>(seen: seq<string>, events: seq<E>, h: Frame -> FrameResult<E>) {
    Deliver(Group(seen).complete, h) == Outcome(events, false)
  }

  lemma {:induction false} DeliveredAtStart<E>(h: Frame -> FrameResult<E>)
    ensures Delivered([], [], h) && Group([]).pending == []
  {
  }

  lemma {:induction false} DeliveredAtLine<E>(seen: seq<string>, line: string, events: seq<E>,
                                              h: Frame -> FrameResult<E>)
    requires Delivered(seen, events, h)
    ensures line != "" ==>
              && Delivered(seen + [line], events, h)
              && Group(seen + [line]).pending == Group(seen).pending + [line]
    ensures line == "" ==>
              && Group(seen + [line]).pending == []
              && match h(Group(seen).pending)
                 case Skip => Delivered(seen + [line], events, h)
                 case Emit(e) => Delivered(seen + [line], events + [e], h)
                 case Fail => Deliver(Group(seen + [line]).complete, h) == Outcome(events, true)
  {
    var g := Group(seen);
    GroupSnoc(seen, line);
    DeliverSnoc(g.complete, g.pending, h);
  }

  /**
   * Frames are local: after a blank line nothing is left over, so what later lines deliver is what
   * they would deliver on their own.
   */
  lemma {:induction false} FramesAreLocal<E>(a: seq<string>, b: seq<string>, h: Frame -> FrameResult<E>)
    requires Group(a).pending == [] && !Deliver(Group(a).complete, h).failed
    ensures Group(a + b) == Framed(Group(a).complete + Group(b).complete, Group(b).pending)
    ensures var before, after := Deliver(Group(a).complete, h), Deliver(Group(b).complete, h);
            Deliver(Group(a + b).complete, h) == Outcome(before.events + after.events, after.failed)
  {
    hide Group, Deliver;
    GroupAppend(a, b);
    DeliverAppend(Group(a).complete, Group(b).complete, h);
  }

  lemma {:induction false} GroupAppend(a: seq<string>, b: seq<string>)
    requires Group(a).pending == []
    ensures Group(a + b) == Framed(Group(a).complete + Group(b).complete, Group(b).pending)
  {
    if b == [] {
      assert a + b == a && Group(a).complete + [] == Group(a).complete;
    } else {
      var n := |b| - 1;
      GroupAppend(a, b[..n]);
      assert (a + b)[..|a + b| - 1] == a + b[..n];
    }
  }

  lemma {:induction false} DeliverAppend<E>(a: seq<Frame>, b: seq<Frame>, h: Frame -> FrameResult<E>)
    requires !Deliver(a, h).failed
    ensures Deliver(a + b, h) == Outcome(Deliver(a, h).events + Deliver(b, h).events, Deliver(b, h).failed)
  {
    if b == [] {
      assert a + b == a && Deliver(a, h).events + [] == Deliver(a, h).events;
    } else {
      var n := |b| - 1;
      DeliverAppend(a, b[..n], h);
      assert (a + b)[..|a + b| - 1] == a + b[..n];
    }
  }

  /** What the first lines of a stream deliver is where the whole stream starts, for both kinds of reader. */
  lemma {:induction false} LinesSoFar<E>(seen: seq<string>, s: string, broken: bool, limit: nat,
                                         h: Frame -> FrameResult<E>)
    requires seen <= Split(s, limit).lines
    ensures var now := Deliver(Group(seen).complete, h);
            && now.events <= Discarding(s, limit, h).events
            && now.events <= Flushing(s, broken, limit, h).events
            && (now.failed ==> now == Discarding(s, limit, h) == Flushing(s, broken, limit, h))
    ensures seen == Split(s, limit).lines ==> Deliver(Group(seen).complete, h) == Discarding(s, limit, h)
  {
    GroupPrefix(seen, Split(s, limit).lines);
    DeliverPrefix(Group(seen).complete, Completed(s, limit), h);
    DeliverPrefix(Completed(s, limit), Flushed(s, broken, limit), h);
  }

  // Line limits.

  /** Some `limit` bytes in a row without a line feed. */
  ghost predicate HasLongRun(s: string, limit: nat) {
    exists i :: LongRunAt(s, limit, i)
  }

  ghost predicate LongRunAt(s: string, limit: nat, i: int) {
    0 <= i <= |s| - limit && forall j :: i <= j < i + limit ==> s[j] != '\n'
  }

  /** A scan stops early exactly when some line, without its line feed, fills the buffer. */
  lemma {:induction false} TooLongExactly(s: string, limit: nat)
    requires limit > 0
    ensures Split(s, limit).tooLong <==> HasLongRun(s, limit)
    decreases |s|
  {
    var i := IndexOf(s, '\n');
    if s == "" {
    } else if i >= limit {
      assert LongRunAt(s, limit, 0);
    } else if i < |s| {
      TooLongExactly(s[i + 1..], limit);
      LongRunLater(s, i, limit);
    }
  }

  lemma {:induction false} LongRunLater(s: string, i: nat, limit: nat)
    requires i < |s| && s[i] == '\n' && i < limit
    ensures HasLongRun(s, limit) <==> HasLongRun(s[i + 1..], limit)
  {
    var rest := s[i + 1..];
    if HasLongRun(rest, limit) {
      var j :| LongRunAt(rest, limit, j);
      assert forall x :: j + i + 1 <= x < j + i + 1 + limit ==> s[x] == rest[x - i - 1];
      assert LongRunAt(s, limit, j + i + 1);
    }
    if HasLongRun(s, limit) {
      var j :| LongRunAt(s, limit, j);
      assert j > i;
      assert LongRunAt(rest, limit, j - i - 1);
    }
  }

  /** A line fits if it is shorter than the limit, its line feed not counted; a line of just the limit does not. */
  lemma {:induction false} LimitCountsNoLineFeed(line: string, rest: string, limit: nat)
    requires '\n' !in line
    ensures var after := Split(rest, limit);
            Split(line + "\n" + rest, limit) ==
            if |line| < limit then Scanned([DropCR(line)] + after.lines, after.tooLong) else Scanned([], true)
  {
    if |line| < limit {
      FirstLine(line, rest, limit);
    } else {
      IndexOfUnique(line + "\n" + rest, '\n', |line|);
    }
  }

  /** A smaller limit reads a prefix of the lines, and all of them when it does not stop the scan. */
  lemma {:induction false} LimitLines(s: string, small: nat, large: nat)
    requires small <= large
    ensures Split(s, small).lines <= Split(s, large).lines
    ensures !Split(s, small).tooLong ==> Split(s, small) == Split(s, large)
    decreases |s|
  {
    if s == "" {
    } else {
      var i := IndexOf(s, '\n');
      if i < small && i < |s| {
        LimitLines(s[i + 1..], small, large);
      }
    }
  }

  /** With a smaller limit both kinds of reader deliver a prefix, and the same when every line fits. */
  lemma {:induction false} LineLimit<E>(s: string, broken: bool, small: nat, large: nat, h: Frame -> FrameResult<E>)
    requires 0 < small <= large
    ensures Discarding(s, small, h).events <= Discarding(s, large, h).events
    ensures Flushing(s, broken, small, h).events <= Flushing(s, broken, large, h).events
    ensures !HasLongRun(s, small) ==>
              && Discarding(s, small, h) == Discarding(s, large, h)
              && Flushing(s, broken, small, h) == Flushing(s, broken, large, h)
  {
    LimitLines(s, small, large);
    TooLongExactly(s, small);
    GroupPrefix(Split(s, small).lines, Split(s, large).lines);
    DeliverPrefix(Completed(s, small), Completed(s, large), h);
    if Split(s, small).tooLong {
      DeliverPrefix(Completed(s, large), Flushed(s, broken, large), h);
    }
  }
}
