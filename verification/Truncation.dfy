/** What a reader delivers of a stream that was cut at an arbitrary byte. */
module Truncation {
  import opened Text
  import opened Lines
  import opened Frames

  /** No line the scan reaches starts with a carriage return that is not part of its line end. */
  predicate CleanStarts(s: string, limit: nat)
    decreases |s|
  {
    s != "" ==>
      && !(limit > 1 && |s| >= 2 && s[0] == '\r' && s[1] != '\n')
      && (var i := IndexOf(s, '\n'); i < limit && i < |s| ==> CleanStarts(s[i + 1..], limit))
  }

  /** A cut right after a carriage return that starts a line the scan reaches but is not part of its line end. */
  predicate AfterStray(s: string, k: nat, limit: nat) {
    && 0 < k < |s| && limit > 1
    && s[k - 1] == '\r' && s[k] != '\n'
    && (k == 1 || s[k - 2] == '\n')
    && !Split(s[..k - 1], limit).tooLong
  }

  /** Every carriage return is followed by a line feed, or ends the stream. */
  ghost predicate ReturnsOnlyInLineEnds(s: string) {
    forall i :: 0 <= i < |s| - 1 && s[i] == '\r' ==> s[i + 1] == '\n'
  }

  lemma {:induction false} LineEndsAreCleanStarts(s: string, limit: nat)
    requires ReturnsOnlyInLineEnds(s)
    ensures CleanStarts(s, limit)
    decreases |s|
  {
    if s == "" {
    } else {
      var i := IndexOf(s, '\n');
      if i < limit && i < |s| {
        var rest := s[i + 1..];
        assert forall j :: 0 <= j < |rest| ==> rest[j] == s[j + i + 1];
        LineEndsAreCleanStarts(rest, limit);
      }
    }
  }

  /** What the last line of a cut stream can be when it is not a line of the full one. */
  ghost predicate Shortened(a: Scanned, b: Scanned) {
    && a.lines != [] && !a.tooLong
    && (var n := |a.lines| - 1;
        && a.lines[..n] <= b.lines
        && (if n < |b.lines| then a.lines[n] <= b.lines[n] else b.tooLong))
  }

  /** The lines of a cut stream are lines of the full one, but for a last line that the cut may have shortened. */
  ghost predicate CutShape(a: Scanned, b: Scanned) {
    a.lines <= b.lines || Shortened(a, b)
  }

  ghost predicate LastLineBlank(a: Scanned) {
    a.lines != [] && a.lines[|a.lines| - 1] == ""
  }

  lemma {:induction false} ShapeOfCons(first: string, a: Scanned, b: Scanned)
    requires CutShape(a, b)
    ensures CutShape(Scanned([first] + a.lines, a.tooLong), Scanned([first] + b.lines, b.tooLong))
    ensures a.lines <= b.lines ==> [first] + a.lines <= [first] + b.lines
    ensures a.lines != [] ==> LastLineBlank(Scanned([first] + a.lines, a.tooLong)) == LastLineBlank(a)
  {
    if !(a.lines <= b.lines) {
      assert ([first] + a.lines)[..|a.lines|] == [first] + a.lines[..|a.lines| - 1];
    }
  }

  /** A cut inside the first line. */
  lemma {:induction false} CutInFirstLine(s: string, k: nat, limit: nat)
    requires 0 < k <= IndexOf(s, '\n') && k < |s|
    ensures CutShape(Split(s[..k], limit), Split(s, limit))
    ensures LastLineBlank(Split(s[..k], limit)) ==>
              Split(s[..k], limit).lines <= Split(s, limit).lines || AfterStray(s, k, limit)
  {
    IndexOfUnique(s[..k], '\n', k);
  }

  lemma {:induction false} SplitAfter(s: string, i: nat, j: nat, limit: nat)
    requires i == IndexOf(s, '\n') && i + 1 + j <= |s|
    ensures i >= limit ==> Split(s[..i + 1 + j], limit) == Split(s, limit) == Scanned([], true)
    ensures i < limit ==>
              && (var rest := Split(s[i + 1..], limit);
                  Split(s, limit) == Scanned([DropCR(s[..i])] + rest.lines, rest.tooLong))
              && (var rest := Split(s[i + 1..][..j], limit);
                  Split(s[..i + 1 + j], limit) == Scanned([DropCR(s[..i])] + rest.lines, rest.tooLong))
  {
    var rest := s[i + 1..];
    if i < limit {
      assert s == s[..i] + "\n" + rest;
      assert s[..i + 1 + j] == s[..i] + "\n" + rest[..j];
      FirstLine(s[..i], rest[..j], limit);
      FirstLine(s[..i], rest, limit);
    } else {
      IndexOfUnique(s[..i + 1 + j], '\n', i);
    }
  }

  /** The shape of a cut; a line that the cut made blank follows a stray carriage return. */
  lemma {:induction false} CutLines(s: string, k: nat, limit: nat)
    requires k <= |s|
    ensures CutShape(Split(s[..k], limit), Split(s, limit))
    ensures k > 0 && s[k - 1] == '\n' ==> Split(s[..k], limit).lines <= Split(s, limit).lines
    ensures LastLineBlank(Split(s[..k], limit)) ==>
              Split(s[..k], limit).lines <= Split(s, limit).lines || AfterStray(s, k, limit)
    decreases |s|
  {
    hide Split;
    var i := IndexOf(s, '\n');
    if k == 0 {
      SplitOfNothing(limit);
    } else if k == |s| {
      assert s[..k] == s;
    } else if k <= i {
      CutInFirstLine(s, k, limit);
    } else {
      var j, rest := k - i - 1, s[i + 1..];
      SplitAfter(s, i, j, limit);
      if i < limit {
        CutLines(rest, j, limit);
        var a, b := Split(rest[..j], limit), Split(rest, limit);
        ShapeOfCons(DropCR(s[..i]), a, b);
        assert j > 0 ==> rest[j - 1] == s[k - 1];
        assert j == 0 ==> a.lines == [] by {
          SplitOfNothing(limit);
        }
        StrayAfterFirst(s, i, j, limit);
      }
    }
  }

  /** Past the first line, a stray carriage return is one of the rest. */
  lemma {:induction false} StrayAfterFirst(s: string, i: nat, j: nat, limit: nat)
    requires i == IndexOf(s, '\n') < limit && i + 1 + j <= |s|
    ensures j > 0 ==> (AfterStray(s, i + 1 + j, limit) <==> AfterStray(s[i + 1..], j, limit))
  {
    hide Split;
    var rest := s[i + 1..];
    assert forall x :: 0 <= x < |rest| ==> rest[x] == s[x + i + 1];
    if j > 0 {
      SplitAfter(s, i, j - 1, limit);
    }
  }

  lemma {:induction false} SplitOfNothing(limit: nat)
    ensures forall s :: s == "" ==> Split(s, limit) == Scanned([], false)
  {
  }

  lemma {:induction false} NonBlankLast(lines: seq<string>)
    requires lines != [] && lines[|lines| - 1] != ""
    ensures Group(lines).complete == Group(lines[..|lines| - 1]).complete
  {
  }

  /** A stray carriage return at a cut is read as a blank line, which the full stream does not have there. */
  lemma {:induction false} StrayLines(s: string, k: nat, limit: nat)
    requires AfterStray(s, k, limit)
    ensures var before, all := Split(s[..k - 1], limit).lines, Split(s, limit).lines;
            && Split(s[..k], limit).lines == before + [""]
            && before <= all && (|before| < |all| ==> all[|before|] != "")
    decreases |s|
  {
    hide Split;
    if k == 1 {
      SplitOfNothing(limit);
      StrayHere(s, limit);
    } else {
      var i := IndexOf(s, '\n');
      var j, rest := k - i - 1, s[i + 1..];
      SplitAfter(s, i, j, limit);
      SplitAfter(s, i, j - 1, limit);
      StrayAfterFirst(s, i, j, limit);
      StrayLines(rest, j, limit);
      SameFirst(DropCR(s[..i]), Split(rest[..j - 1], limit).lines, Split(rest, limit).lines);
    }
  }

  lemma {:induction false} StrayHere(s: string, limit: nat)
    requires limit > 1 && |s| >= 2 && s[0] == '\r' && s[1] != '\n'
    ensures Split(s[..1], limit).lines == [""]
    ensures Split(s, limit).lines != [] ==> Split(s, limit).lines[0] != ""
  {
    assert s[..1] == "\r";
    IndexOfUnique("\r", '\n', 1);
    assert IndexOf(s, '\n') >= 2;
  }

  lemma {:induction false} SameFirst(first: string, a: seq<string>, b: seq<string>)
    requires a <= b
    ensures [first] + a <= [first] + b
    ensures |a| < |b| ==> ([first] + b)[|[first] + a|] == b[|a|]
    ensures [first] + (a + [""]) == [first] + a + [""]
  {
  }

  /** Once a frame has a line more, it is never completed without it. */
  lemma {:induction false} FrameOnlyGrows(before: seq<string>, line: string, lines: seq<string>)
    requires line != "" && before + [line] <= lines
    ensures var n, p := |Group(before).complete|, |Group(before).pending|;
            var g := Group(lines);
            |g.complete| >= n && if |g.complete| == n then |g.pending| > p else |g.complete[n]| > p
  {
    if lines == before + [line] {
      GroupSnoc(before, line);
    } else {
      assert before + [line] <= lines[..|lines| - 1];
      FrameOnlyGrows(before, line, lines[..|lines| - 1]);
    }
  }

  /**
   * One cut, exactly: the completed frames are a prefix of the full stream's unless the cut falls right
   * after a stray carriage return, and then they never are.
   */
  lemma {:induction false} CutIsSafeExactly(s: string, k: nat, limit: nat)
    requires k <= |s|
    ensures Completed(s[..k], limit) <= Completed(s, limit) <==> !AfterStray(s, k, limit)
  {
    hide Split, Group, AfterStray;
    var a, b := Split(s[..k], limit).lines, Split(s, limit).lines;
    if AfterStray(s, k, limit) {
      StrayCompletes(s, k, limit);
    } else {
      CutLines(s, k, limit);
      if a <= b {
        GroupPrefix(a, b);
      } else {
        NonBlankLast(a);
        GroupPrefix(a[..|a| - 1], b);
      }
    }
  }

  /** After a stray carriage return the open frame counts as completed; the full stream never completes it so. */
  lemma {:induction false} StrayCompletes(s: string, k: nat, limit: nat)
    requires AfterStray(s, k, limit)
    ensures 0 < k < |s|
    ensures var before, all := Group(Split(s[..k - 1], limit).lines), Completed(s, limit);
            && Completed(s[..k], limit) == before.complete + [before.pending]
            && before.complete <= all
            && (|before.complete| < |all| ==> all[|before.complete|] != before.pending)
  {
    hide Split, Group;
    StrayLines(s, k, limit);
    var before, all := Split(s[..k - 1], limit).lines, Split(s, limit).lines;
    GroupSnoc(before, "");
    GroupPrefix(before, all);
    if before != all {
      assert before + [all[|before|]] <= all;
      FrameOnlyGrows(before, all[|before|], all);
    }
  }

  /** Some line starts with a stray carriage return exactly when some cut falls right after one. */
  lemma {:induction false} CleanStartsExactly(s: string, limit: nat)
    ensures CleanStarts(s, limit) <==> forall k :: 0 <= k <= |s| ==> !AfterStray(s, k, limit)
    decreases |s|
  {
    if s == "" {
    } else if limit > 1 && |s| >= 2 && s[0] == '\r' && s[1] != '\n' {
      assert AfterStray(s, 1, limit);
    } else {
      var i := IndexOf(s, '\n');
      if i < limit && i < |s| {
        var rest := s[i + 1..];
        CleanStartsExactly(rest, limit);
        forall j | 0 < j <= |rest|
          ensures AfterStray(s, i + 1 + j, limit) <==> AfterStray(rest, j, limit)
        {
          StrayAfterFirst(s, i, j, limit);
        }
        forall k | 0 <= k <= |s|
          ensures AfterStray(s, k, limit) ==> k > i + 1 && AfterStray(rest, k - i - 1, limit)
        {
          assert k > i + 1 ==> k == i + 1 + (k - i - 1);
        }
      } else {
        forall k | 0 <= k <= |s|
          ensures !AfterStray(s, k, limit)
        {
          NoLaterLine(s, k, limit);
        }
      }
    }
  }

  lemma {:induction false} NoLaterLine(s: string, k: nat, limit: nat)
    requires IndexOf(s, '\n') >= limit || IndexOf(s, '\n') == |s|
    ensures AfterStray(s, k, limit) ==> k == 1
  {
    var i := IndexOf(s, '\n');
    if i + 2 <= k < |s| {
      IndexOfUnique(s[..k - 1], '\n', i);
    }
  }

  /**
   * Truncation safety, exactly: at every cut the completed frames are a prefix of the full stream's,
   * if and only if no line the scan reaches starts with a stray carriage return.
   */
  lemma {:induction false} TruncationSafeExactly(s: string, limit: nat)
    ensures (forall k :: 0 <= k <= |s| ==> Completed(s[..k], limit) <= Completed(s, limit)) <==> CleanStarts(s, limit)
  {
    hide Completed, AfterStray, CleanStarts;
    forall k | 0 <= k <= |s|
      ensures Completed(s[..k], limit) <= Completed(s, limit) <==> !AfterStray(s, k, limit)
    {
      CutIsSafeExactly(s, k, limit);
    }
    CleanStartsExactly(s, limit);
  }

  lemma {:induction false} GroupOfNothing()
    ensures Group([]) == Framed([], [])
  {
  }

  lemma {:induction false} SplitTwoLines(first: string, second: string, limit: nat)
    requires '\n' !in first && '\n' !in second && second != "" && |first| < limit && |second| < limit
    ensures Split(first + "\n" + second, limit).lines == [DropCR(first), DropCR(second)]
  {
    FirstLine(first, second, limit);
    IndexOfUnique(second, '\n', |second|);
  }

  /** The events of a cut stream, read by a discarding reader, are a prefix of the full stream's. */
  lemma {:induction false} DiscardingIsTruncationSafe<E>(s: string, k: nat, limit: nat, h: Frame -> FrameResult<E>)
    requires k <= |s| && CleanStarts(s, limit)
    ensures Discarding(s[..k], limit, h).events <= Discarding(s, limit, h).events
  {
    hide Completed, AfterStray, CleanStarts;
    TruncationSafeExactly(s, limit);
    DeliverPrefix(Completed(s[..k], limit), Completed(s, limit), h);
  }

  /** The cut makes the open frame an event of its own that the full stream does not have in that place. */
  predicate DeliversEarly<E(==)>(s: string, k: nat, limit: nat, h: Frame -> FrameResult<E>) {
    AfterStray(s, k, limit) &&
    var before, open := Discarding(s[..k - 1], limit, h), h(Group(Split(s[..k - 1], limit).lines).pending);
    var all := Discarding(s, limit, h).events;
    !before.failed && open.Emit? && (|all| <= |before.events| || all[|before.events|] != open.event)
  }

  /**
   * One cut, exactly, for the events: they are a prefix of the full stream's unless the cut falls right
   * after a stray carriage return, no earlier frame failed, the open frame is an event, and the full
   * stream's next event is not that one.
   */
  lemma {:induction false} DiscardingIsSafeExactly<E>(s: string, k: nat, limit: nat, h: Frame -> FrameResult<E>)
    requires k <= |s|
    ensures Discarding(s[..k], limit, h).events <= Discarding(s, limit, h).events <==>
            !DeliversEarly(s, k, limit, h)
  {
    hide Split, Group, Deliver, AfterStray;
    if AfterStray(s, k, limit) {
      StrayCompletes(s, k, limit);
      var g := Group(Split(s[..k - 1], limit).lines);
      DeliverSnoc(g.complete, g.pending, h);
      DeliverPrefix(g.complete, Completed(s, limit), h);
    } else {
      CutIsSafeExactly(s, k, limit);
      DeliverPrefix(Completed(s[..k], limit), Completed(s, limit), h);
    }
  }

  /** The frame that the end of `t` leaves unfinished. */
  function OpenFrame(t: string, limit: nat): Frame {
    var lines := Split(t, limit).lines;
    if t != "" && t[|t| - 1] != '\n' && lines != [] && lines[|lines| - 1] == ""
    then Group(lines[..|lines| - 1]).pending
    else Group(lines).pending
  }

  ghost predicate AtMostOneBeyond<E>(a: seq<E>, b: seq<E>, extra: FrameResult<E>) {
    a <= b || (a != [] && a[..|a| - 1] <= b && extra == Emit(a[|a| - 1]))
  }

  /**
   * A reader that flushes at the end delivers, of any cut of any stream, a prefix of the full stream's
   * events and at most one more, and that one comes from the frame the cut left open.
   */
  lemma {:induction false} FlushBound<E>(s: string, k: nat, broken: bool, cutBroken: bool, limit: nat,
                                         h: Frame -> FrameResult<E>)
    requires k <= |s| && h([]) == Skip
    ensures AtMostOneBeyond(Flushing(s[..k], cutBroken, limit, h).events, Flushing(s, broken, limit, h).events,
                            h(OpenFrame(s[..k], limit)))
  {
    hide Split, Group, Deliver;
    CutLines(s, k, limit);
    SplitOfNothing(limit);
    var a, b := Split(s[..k], limit).lines, Split(s, limit).lines;
    if a <= b {
      OneMoreFrame(a, b, s, broken, limit, h);
      assert Group([]).pending == [] by { DeliveredAtStart(h); }
      if LastLineBlank(Split(s[..k], limit)) {
        BlankLast(a, h);
      }
    } else {
      var n := |a| - 1;
      assert a == a[..n] + [a[n]];
      assert s[..k][k - 1] == s[k - 1];
      OneMoreLine(a[..n], a[n], b, s, broken, limit, h);
    }
  }

  /** After a blank line nothing is pending, so flushing adds nothing. */
  lemma {:induction false} BlankLast<E>(lines: seq<string>, h: Frame -> FrameResult<E>)
    requires lines != [] && lines[|lines| - 1] == "" && h([]) == Skip
    ensures var g := Group(lines); Deliver(g.complete + [g.pending], h) == Deliver(g.complete, h)
  {
    DeliverSnoc(Group(lines).complete, [], h);
  }

  lemma {:induction false} OneMoreLine<E>(before: seq<string>, line: string, b: seq<string>, s: string, broken: bool,
                                          limit: nat, h: Frame -> FrameResult<E>)
    requires b == Split(s, limit).lines && before <= b && h([]) == Skip
    ensures var g, full := Group(before + [line]), Flushing(s, broken, limit, h).events;
            var open := if line == "" then Group(before).pending else g.pending;
            && AtMostOneBeyond(Deliver(g.complete, h).events, full, h(open))
            && AtMostOneBeyond(Deliver(g.complete + [g.pending], h).events, full, h(open))
  {
    var g := Group(before + [line]);
    GroupSnoc(before, line);
    OneMoreFrame(before, b, s, broken, limit, h);
    DeliverSnoc(g.complete, g.pending, h);
  }

  /** Flushing the pending frame of lines that `s` starts with too gives at most one event beyond those of `s`. */
  lemma {:induction false} OneMoreFrame<E>(a: seq<string>, b: seq<string>, s: string, broken: bool, limit: nat,
                                           h: Frame -> FrameResult<E>)
    requires b == Split(s, limit).lines && a <= b
    ensures var g, full := Group(a), Flushing(s, broken, limit, h).events;
            && Deliver(g.complete, h).events <= full
            && AtMostOneBeyond(Deliver(g.complete + [g.pending], h).events, full, h(g.pending))
  {
    var g := Group(a);
    GroupPrefix(a, b);
    DeliverPrefix(g.complete, Group(b).complete, h);
    DeliverPrefix(Group(b).complete, Flushed(s, broken, limit), h);
    DeliverSnoc(g.complete, g.pending, h);
  }
}
