/**
 * Resuming by cursor: a consumer that keeps the sequence number of the last message it processed and
 * reads on after it, by history pages and by subscriptions that may break off at any byte.
 */
module Resume {
  import opened Text
  import opened Numbers
  import opened Lines
  import opened Frames
  import opened Truncation
  import opened Wire
  import Channel = ChannelReader
  import Goroutine = Subscription

  /** The channel's log: sequence numbers grow strictly, gaps are fine. */
  ghost predicate Increasing<M>(log: seq<M>, number: M -> int) {
    forall i, j :: 0 <= i < j < |log| ==> number(log[i]) < number(log[j])
  }

  /** The entries after a cursor, exclusively. */
  function After<M>(log: seq<M>, since: int, number: M -> int): seq<M> {
    if log == [] then []
    else
      var before, last := After(log[..|log| - 1], since, number), log[|log| - 1];
      if number(last) > since then before + [last] else before
  }

  datatype Consumer<M> = Consumer(processed: seq<M>, cursor: int)

  /**
   * One contact with the daemon, whose log is `log` by then: a subscription that carries `items`, breaks
   * off after `cut` bytes and of which the consumer processes the first `taken` messages; or a history
   * page of `count` entries, whatever limit made it that many, with the cursor `next` to go on from.
   */
  datatype Contact<M> =
    | Subscribe(log: seq<M>, items: seq<Sent<M>>, cut: nat, taken: nat)
    | Page(log: seq<M>, count: nat, next: int)

  datatype Codec<!M> = Codec(encode: M -> string, decode: string -> Option<M>, number: M -> int)

  function Received<M>(items: seq<Sent<M>>, cut: nat, codec: Codec<M>): seq<M>
    requires cut <= |Render(FramesOf(items))|
  {
    Channel.Messages(Render(FramesOf(items))[..cut], codec.decode).events
  }

  /** What a contact may be when it starts from `cursor` and the log was `log` before. */
  ghost predicate Possible<M(!new)>(c: Contact<M>, cursor: int, log: seq<M>, codec: Codec<M>) {
    && log <= c.log && Increasing(c.log, codec.number)
    && match c
       case Subscribe(_, items, cut, taken) =>
         && AllWellSent(items, codec.encode)
         && MessagesOf(items) <= After(c.log, cursor, codec.number)
         && cut <= |Render(FramesOf(items))|
         && taken <= |Received(items, cut, codec)|
       case Page(_, count, next) =>
         var rest := After(c.log, cursor, codec.number);
         && count <= |rest| && (rest != [] ==> count > 0)
         && next == if count == 0 then cursor else codec.number(rest[count - 1])
  }

  function Gained<M>(c: Contact<M>, cursor: int, codec: Codec<M>): seq<M>
    requires match c
             case Subscribe(_, items, cut, taken) =>
               cut <= |Render(FramesOf(items))| && taken <= |Received(items, cut, codec)|
             case Page(_, count, _) => count <= |After(c.log, cursor, codec.number)|
  {
    match c
    case Subscribe(_, items, cut, taken) => Received(items, cut, codec)[..taken]
    case Page(log, count, _) => After(log, cursor, codec.number)[..count]
  }

  /** After a page the cursor is the one it came with; else the last processed message's, if there is one. */
  ghost function Advance<M(!new)>(consumer: Consumer<M>, c: Contact<M>, log: seq<M>, codec: Codec<M>): Consumer<M>
    requires Possible(c, consumer.cursor, log, codec)
  {
    var gained := Gained(c, consumer.cursor, codec);
    Consumer(consumer.processed + gained,
             if c.Page? then c.next
             else if gained == [] then consumer.cursor
             else codec.number(gained[|gained| - 1]))
  }

  /** Exactly once so far: what was processed is a prefix of the entries after the start, and the cursor its last. */
  ghost predicate ExactlyOnce<M>(consumer: Consumer<M>, start: int, log: seq<M>, number: M -> int) {
    var p := consumer.processed;
    && p <= After(log, start, number)
    && consumer.cursor == if p == [] then start else number(p[|p| - 1])
  }

  /** The place in a log from which on the sequence numbers are above a cursor. */
  ghost predicate FirstAbove<M>(log: seq<M>, since: int, n: nat, number: M -> int) {
    && n <= |log|
    && (forall i :: 0 <= i < n ==> number(log[i]) <= since)
    && (forall i :: n <= i < |log| ==> number(log[i]) > since)
  }

  /** Some entries are the first ones of a log above a cursor, without a gap. */
  ghost predicate StartsTheRest<M>(p: seq<M>, log: seq<M>, since: int, number: M -> int) {
    exists n: nat :: FirstAbove(log, since, n, number) && p <= log[n..]
  }

  /** Some entries are all those of a log above a cursor. */
  ghost predicate IsTheRest<M>(p: seq<M>, log: seq<M>, since: int, number: M -> int) {
    exists n: nat :: FirstAbove(log, since, n, number) && p == log[n..]
  }

  // The log and its suffixes.

  /** Every log has such a place, and the entries after a cursor are exactly those from there on. */
  lemma {:induction false} AfterIsTheRest<M>(log: seq<M>, since: int, number: M -> int) returns (n: nat)
    requires Increasing(log, number)
    ensures FirstAbove(log, since, n, number) && After(log, since, number) == log[n..]
    ensures forall m: nat :: FirstAbove(log, since, m, number) ==> m == n
  {
    n := PlaceOf(log, since, number);
    AfterFrom(log, since, n, number);
    forall m: nat | FirstAbove(log, since, m, number)
      ensures m == n
    {
      NotLater(log, since, m, n, number);
      NotLater(log, since, n, m, number);
    }
  }

  lemma {:induction false} NotLater<M>(log: seq<M>, since: int, m: nat, n: nat, number: M -> int)
    requires FirstAbove(log, since, m, number) && n <= |log| && (n < |log| ==> number(log[n]) > since)
    ensures m <= n
  {
  }

  lemma {:induction false} AfterIsAll<M>(log: seq<M>, since: int, number: M -> int)
    requires Increasing(log, number)
    ensures IsTheRest(After(log, since, number), log, since, number)
  {
    hide FirstAbove, After, Increasing;
    var n := AfterIsTheRest(log, since, number);
  }

  lemma {:induction false} PlaceOf<M>(log: seq<M>, since: int, number: M -> int) returns (n: nat)
    requires Increasing(log, number)
    ensures FirstAbove(log, since, n, number)
  {
    if log == [] || number(log[|log| - 1]) <= since {
      n := |log|;
    } else {
      n := PlaceOf(log[..|log| - 1], since, number);
    }
  }

  lemma {:induction false} AfterFrom<M>(log: seq<M>, since: int, n: nat, number: M -> int)
    requires FirstAbove(log, since, n, number)
    ensures After(log, since, number) == log[n..]
  {
    if log != [] {
      var last := |log| - 1;
      var before := log[..last];
      if n == |log| {
        AfterFrom(before, since, last, number);
      } else {
        AfterFrom(before, since, n, number);
        assert before[n..] + [log[last]] == log[n..];
      }
    }
  }

  lemma {:induction false} AfterGrows<M>(log: seq<M>, larger: seq<M>, since: int, number: M -> int)
    requires log <= larger
    ensures After(log, since, number) <= After(larger, since, number)
  {
    if log != larger {
      assert log <= larger[..|larger| - 1];
      AfterGrows(log, larger[..|larger| - 1], since, number);
    }
  }

  lemma {:induction false} AfterIsInLog<M>(log: seq<M>, since: int, number: M -> int)
    ensures forall i :: 0 <= i < |After(log, since, number)| ==>
              After(log, since, number)[i] in log && number(After(log, since, number)[i]) > since
  {
    if log != [] {
      AfterIsInLog(log[..|log| - 1], since, number);
    }
  }

  lemma {:induction false} NothingAfter<M>(log: seq<M>, since: int, number: M -> int)
    requires forall i :: 0 <= i < |log| ==> number(log[i]) <= since
    ensures After(log, since, number) == []
  {
    if log != [] {
      NothingAfter(log[..|log| - 1], since, number);
    }
  }

  /** Reading on after the last of some processed entries gives exactly the others. */
  lemma {:induction false} AfterSuffix<M>(log: seq<M>, start: int, p: seq<M>, number: M -> int)
    requires Increasing(log, number) && p != [] && p <= After(log, start, number)
    ensures After(log, number(p[|p| - 1]), number) == After(log, start, number)[|p|..]
  {
    var n, cursor := |log| - 1, number(p[|p| - 1]);
    assert log != [];
    var before, last := log[..n], log[n];
    var a := After(before, start, number);
    AfterIsInLog(before, start, number);
    if |p| <= |a| {
      assert p <= a;
      AfterSuffix(before, start, p, number);
      assert p[|p| - 1] == a[|p| - 1];
      var k :| 0 <= k < n && before[k] == a[|p| - 1];
      assert number(log[k]) < number(last);
      assert (a + [last])[|p|..] == a[|p|..] + [last];
    } else {
      assert p == a + [last];
      NothingAfter(before, cursor, number);
    }
  }

  // One contact.

  /** Whatever byte a subscription breaks off at, it delivers a prefix of the messages it carries. */
  lemma {:induction false} ReceivedIsAPrefix<M(!new)>(items: seq<Sent<M>>, cut: nat, codec: Codec<M>)
    requires AllWellSent(items, codec.encode) && Inverse(codec.encode, codec.decode)
    requires cut <= |Render(FramesOf(items))|
    ensures Received(items, cut, codec) <= MessagesOf(items)
  {
    hide AllWellSent, Inverse, Render, Split, CleanStarts, Channel.Handler, Completed;
    var s := Render(FramesOf(items));
    var large := |s| + 1 + Channel.CHANNEL_LIMIT;
    var h := Channel.Handler(codec.decode);
    SentFramesAreWritable(items, codec.encode);
    RenderedFrames(FramesOf(items), large);
    assert !HasLongRun(s, large);
    RoundTrip(items, large, codec.encode, codec.decode);
    DiscardingIsTruncationSafe(s, cut, large, h);
    LineLimit(s[..cut], true, Channel.CHANNEL_LIMIT, large, h);
  }

  lemma {:induction false} RenderAppend(a: seq<WireFrame>, b: seq<WireFrame>)
    ensures Render(a + b) == Render(a) + Render(b)
  {
    hide RenderLines;
    if a == [] {
      assert a + b == b;
    } else {
      assert (a + b)[1..] == a[1..] + b;
      RenderAppend(a[1..], b);
    }
  }

  lemma {:induction false} FramesOfTake<M>(items: seq<Sent<M>>, j: nat)
    requires j <= |items|
    ensures |FramesOf(items)| == |items| && FramesOf(items[..j]) == FramesOf(items)[..j]
  {
    if items != [] {
      var n := |items| - 1;
      FramesOfTake(items[..n], if j < n then j else n);
      if j <= n {
        assert items[..n][..j] == items[..j];
      } else {
        assert items[..j] == items;
      }
    }
  }

  /** A subscription delivers every message of the frames that arrived whole, if their lines fit the limit. */
  lemma {:induction false} WholeFramesArrive<M(!new)>(items: seq<Sent<M>>, j: nat, cut: nat, codec: Codec<M>)
    requires AllWellSent(items, codec.encode) && Inverse(codec.encode, codec.decode)
    requires 0 < j <= |items|
    requires |Render(FramesOf(items[..j]))| <= cut <= |Render(FramesOf(items))|
    requires !HasLongRun(Render(FramesOf(items[..j])), Channel.CHANNEL_LIMIT)
    ensures MessagesOf(items[..j]) <= Received(items, cut, codec)
  {
    hide WellSent, Inverse, Split, Channel.Handler, HasLongRun, Deliver, Render;
    var first, s := Render(FramesOf(items[..j])), Render(FramesOf(items));
    var limit, h := Channel.CHANNEL_LIMIT, Channel.Handler(codec.decode);
    FramesOfTake(items, j);
    assert FramesOf(items) == FramesOf(items[..j]) + FramesOf(items)[j..];
    RenderAppend(FramesOf(items[..j]), FramesOf(items)[j..]);
    RenderEndsInLineFeed(FramesOf(items[..j]));
    RoundTrip(items[..j], limit, codec.encode, codec.decode);
    var t := s[..cut];
    assert t[..|first|] == first;
    CutLines(t, |first|, limit);
    GroupPrefix(Split(first, limit).lines, Split(t, limit).lines);
    DeliverPrefix(Completed(first, limit), Completed(t, limit), h);
  }

  /**
   * Whatever interleaving of the goroutine, the consumer and cancellation a subscription goes through,
   * what the consumer has received of a stream cut anywhere is what some contact gains.
   */
  lemma {:induction false} AnyInterleavingIsAContact<M(!new)>(items: seq<Sent<M>>, cut: nat, broken: bool,
                                                              actions: seq<Goroutine.Action>, codec: Codec<M>)
    requires AllWellSent(items, codec.encode) && Inverse(codec.encode, codec.decode)
    requires cut <= |Render(FramesOf(items))|
    requires Goroutine.Possible(Goroutine.Setting(Render(FramesOf(items))[..cut], broken, codec.decode),
        Goroutine.Start(), actions)
    ensures var setting := Goroutine.Setting(Render(FramesOf(items))[..cut], broken, codec.decode);
            var received := Goroutine.RunOf(setting, Goroutine.Start(), actions).received;
            && received <= Received(items, cut, codec)
            && received <= MessagesOf(items)
  {
    hide AllWellSent, Inverse, Render, FramesOf, Goroutine.Possible, Goroutine.RunOf, Channel.Messages;
    var setting := Goroutine.Setting(Render(FramesOf(items))[..cut], broken, codec.decode);
    Goroutine.EveryRunIsSafe(setting, actions);
    ReceivedIsAPrefix(items, cut, codec);
  }

  /** A page may hold everything that is left. */
  lemma {:induction false} FullPage<M(!new)>(log: seq<M>, cursor: int, codec: Codec<M>)
    requires Increasing(log, codec.number)
    ensures var rest := After(log, cursor, codec.number);
            var page := Page(log, |rest|, if rest == [] then cursor else codec.number(rest[|rest| - 1]));
            Possible(page, cursor, log, codec) && Gained(page, cursor, codec) == rest
  {
  }

  /** Every contact keeps the consumer exactly once, even when the log has grown in between. */
  lemma {:induction false} ContactKeepsExactlyOnce<M(!new)>(consumer: Consumer<M>, start: int, log: seq<M>,
                                                            c: Contact<M>, codec: Codec<M>)
    requires ExactlyOnce(consumer, start, log, codec.number) && Possible(c, consumer.cursor, log, codec)
    requires Inverse(codec.encode, codec.decode)
    ensures var gained := Gained(c, consumer.cursor, codec);
            && ExactlyOnce(Advance(consumer, c, log, codec), start, c.log, codec.number)
            && gained <= After(c.log, consumer.cursor, codec.number)
            && After(c.log, Advance(consumer, c, log, codec).cursor, codec.number) ==
               After(c.log, consumer.cursor, codec.number)[|gained|..]
  {
    hide Inverse, After, AllWellSent, Increasing, Received, Render, MessagesOf, FramesOf;
    var all, rest := After(c.log, start, codec.number), After(c.log, consumer.cursor, codec.number);
    var p, gained := consumer.processed, Gained(c, consumer.cursor, codec);
    AfterGrows(log, c.log, start, codec.number);
    if p != [] {
      AfterSuffix(c.log, start, p, codec.number);
    }
    assert rest == all[|p|..];
    if c.Subscribe? {
      ReceivedIsAPrefix(c.items, c.cut, codec);
    }
    assert gained <= rest;
    assert p + gained <= all;
    if gained != [] {
      AfterSuffix(c.log, consumer.cursor, gained, codec.number);
    } else {
      assert p + gained == p && rest[0..] == rest;
    }
  }

  // Whole runs.

  ghost predicate PossibleRun<M(!new)>(contacts: seq<Contact<M>>, consumer: Consumer<M>, log: seq<M>, codec: Codec<M>)
    decreases |contacts|
  {
    contacts != [] ==>
      && Possible(contacts[0], consumer.cursor, log, codec)
      && PossibleRun(contacts[1..], Advance(consumer, contacts[0], log, codec), contacts[0].log, codec)
  }

  ghost function RunOf<M(!new)>(contacts: seq<Contact<M>>, consumer: Consumer<M>, log: seq<M>,
      codec: Codec<M>): Consumer<M>
    requires PossibleRun(contacts, consumer, log, codec)
    decreases |contacts|
  {
    if contacts == [] then consumer
    else RunOf(contacts[1..], Advance(consumer, contacts[0], log, codec), contacts[0].log, codec)
  }

  function LastLog<M>(contacts: seq<Contact<M>>, log: seq<M>): seq<M> {
    if contacts == [] then log else contacts[|contacts| - 1].log
  }

  /**
   * Over any run of pages and broken-off subscriptions, with the log growing in between, a consumer
   * that starts at `start` has processed exactly a prefix of the entries after it: none lost, none
   * twice, in order. Its cursor is always one the subscription accepts.
   */
  lemma {:induction false} RunIsExactlyOnce<M(!new)>(contacts: seq<Contact<M>>, consumer: Consumer<M>, start: int,
                                                     log: seq<M>, codec: Codec<M>)
    requires PossibleRun(contacts, consumer, log, codec) && Inverse(codec.encode, codec.decode)
    requires ExactlyOnce(consumer, start, log, codec.number) && Increasing(log, codec.number)
    ensures Increasing(LastLog(contacts, log), codec.number)
    ensures var end := RunOf(contacts, consumer, log, codec);
            && ExactlyOnce(end, start, LastLog(contacts, log), codec.number)
            && consumer.processed <= end.processed
            && end.cursor >= start
            && StartsTheRest(end.processed, LastLog(contacts, log), start, codec.number)
    decreases |contacts|
  {
    hide Inverse, After, AllWellSent, Increasing, Received, Render, MessagesOf, FramesOf, ExactlyOnce, StartsTheRest;
    if contacts == [] {
      CursorNotBefore(consumer, start, log, codec.number);
      ProcessedFrom(consumer, start, log, codec.number);
    } else {
      var c := contacts[0];
      ContactKeepsExactlyOnce(consumer, start, log, c, codec);
      RunIsExactlyOnce(contacts[1..], Advance(consumer, c, log, codec), start, c.log, codec);
    }
  }

  lemma {:induction false} ProcessedFrom<M>(consumer: Consumer<M>, start: int, log: seq<M>, number: M -> int)
    requires ExactlyOnce(consumer, start, log, number) && Increasing(log, number)
    ensures StartsTheRest(consumer.processed, log, start, number)
    ensures consumer.processed == After(log, start, number) ==> IsTheRest(consumer.processed, log, start, number)
  {
    hide FirstAbove, After, Increasing;
    var n := AfterIsTheRest(log, start, number);
  }

  lemma {:induction false} CursorNotBefore<M>(consumer: Consumer<M>, start: int, log: seq<M>, number: M -> int)
    requires ExactlyOnce(consumer, start, log, number)
    ensures consumer.cursor >= start
  {
    AfterIsInLog(log, start, number);
    var p := consumer.processed;
    if p != [] {
      assert p[|p| - 1] == After(log, start, number)[|p| - 1];
    }
  }

  /** What a subscription asks the daemon for. */
  datatype Query = Rejected | Live | From(since: string)

  function SubscribeQuery(name: string, since: Option<int>): Query {
    if name == "" then Rejected
    else
      match since
      case None => Live
      case Some(n) => if n < 0 then Rejected else From(FormatInt(n))
  }

  /** No channel name or a negative cursor is refused, no cursor starts live, and 0 asks for everything. */
  lemma {:induction false} QueryForms(name: string, since: Option<int>)
    ensures SubscribeQuery(name, since) == Rejected <==> name == "" || (since.Some? && since.value < 0)
    ensures SubscribeQuery(name, since) == Live <==> name != "" && since == None
    ensures name != "" ==> SubscribeQuery(name, Some(0)) == From("0")
  {
  }

  /** Reconnecting with the cursor of any run from a start that is not negative asks for exactly what is missing. */
  lemma {:induction false} ReconnectAsksForTheRest<M(!new)>(contacts: seq<Contact<M>>, start: int, log: seq<M>,
                                                            name: string, codec: Codec<M>)
    requires PossibleRun(contacts, Consumer([], start), log, codec) && Inverse(codec.encode, codec.decode)
    requires Increasing(log, codec.number) && name != "" && 0 <= start && IsInt64(start)
    requires forall i :: 0 <= i < |LastLog(contacts, log)| ==> IsInt64(codec.number(LastLog(contacts, log)[i]))
    ensures var end, last := RunOf(contacts, Consumer([], start), log, codec), LastLog(contacts, log);
            var query := SubscribeQuery(name, Some(end.cursor));
            && query.From? && ParseInt(query.since) == Some(end.cursor)
            && end.processed + After(last, end.cursor, codec.number) == After(last, start, codec.number)
            && IsTheRest(After(last, end.cursor, codec.number), last, end.cursor, codec.number)
  {
    hide PossibleRun, RunOf, After, Inverse, FormatInt, ParseInt, IsTheRest, StartsTheRest;
    RunIsExactlyOnce(contacts, Consumer([], start), start, log, codec);
    var end, last := RunOf(contacts, Consumer([], start), log, codec), LastLog(contacts, log);
    AfterIsAll(last, end.cursor, codec.number);
    AfterIsInLog(last, start, codec.number);
    var p := end.processed;
    if p != [] {
      assert p[|p| - 1] == After(last, start, codec.number)[|p| - 1];
      AfterSuffix(last, start, p, codec.number);
    }
    FormatThenParse(end.cursor);
  }

  /** What was published after the log was `now`. */
  function Since<M>(log: seq<M>, now: seq<M>): (r: seq<M>)
    requires now <= log
    ensures now + r == log
  {
    log[|now|..]
  }

  /**
   * A live start has no cursor: it carries what comes after the log as it is on connecting, `now`. Once
   * a message of it was processed, the next cursor gives exactly the rest since then. Nothing is lost
   * since an earlier live connection at `before`, of which no message was processed, if and only if
   * nothing was published in between.
   */
  lemma {:induction false} LiveStart<M(!new)>(before: seq<M>, now: seq<M>, log: seq<M>, items: seq<Sent<M>>,
                                              cut: nat, p: seq<M>, codec: Codec<M>)
    requires before <= now <= log && Increasing(log, codec.number)
    requires AllWellSent(items, codec.encode) && Inverse(codec.encode, codec.decode)
    requires MessagesOf(items) <= Since(log, now) && cut <= |Render(FramesOf(items))|
    requires p != [] && p <= Received(items, cut, codec)
    ensures p <= Since(log, now)
    ensures After(log, codec.number(p[|p| - 1]), codec.number) == Since(log, now)[|p|..]
    ensures p <= Since(log, before) <==> before == now
  {
    hide AllWellSent, Inverse, Received, Render, FramesOf, MessagesOf, Increasing, After;
    ReceivedIsAPrefix(items, cut, codec);
    var n := |now| + |p| - 1;
    assert p <= log[|now|..];
    assert log[n] == log[|now|..][|p| - 1] == p[|p| - 1];
    AfterEntry(log, n, codec.number);
    assert log[n + 1..] == log[|now|..][|p|..];
    if p <= log[|before|..] {
      assert p[0] == log[|now|] == log[|before|];
      SameEntry(log, |before|, |now|, codec.number);
    }
  }

  lemma {:induction false} SameEntry<M>(log: seq<M>, i: nat, j: nat, number: M -> int)
    requires Increasing(log, number) && i <= j < |log| && log[i] == log[j]
    ensures i == j
  {
  }

  lemma {:induction false} AfterEntry<M>(log: seq<M>, n: nat, number: M -> int)
    requires Increasing(log, number) && n < |log|
    ensures After(log, number(log[n]), number) == log[n + 1..]
  {
    var last := |log| - 1;
    if n == last {
      NothingAfter(log, number(log[n]), number);
    } else {
      AfterEntry(log[..last], n, number);
      assert log[..last][n + 1..] + [log[last]] == log[n + 1..];
    }
  }

  /**
   * A subscription of which a message frame arrived whole and was processed leaves strictly less to
   * read, and so does a page that is not empty; an empty page means that nothing is left.
   */
  lemma {:induction false} ContactMakesProgress<M(!new)>(consumer: Consumer<M>, start: int, log: seq<M>,
                                                         c: Contact<M>, j: nat, codec: Codec<M>)
    requires ExactlyOnce(consumer, start, log, codec.number) && Possible(c, consumer.cursor, log, codec)
    requires Inverse(codec.encode, codec.decode)
    ensures var rest := After(c.log, consumer.cursor, codec.number);
            var next := Advance(consumer, c, log, codec);
            var left := After(c.log, next.cursor, codec.number);
            match c
            case Subscribe(_, items, cut, taken) =>
              && 0 < j <= |items| && |Render(FramesOf(items[..j]))| <= cut && MessagesOf(items[..j]) != []
              && !HasLongRun(Render(FramesOf(items[..j])), Channel.CHANNEL_LIMIT)
              && taken == |Received(items, cut, codec)| ==>
                |left| + |MessagesOf(items[..j])| <= |rest|
            case Page(_, _, _) =>
              if Gained(c, consumer.cursor, codec) == []
              then rest == [] && next.processed == After(c.log, start, codec.number)
              else |left| < |rest|
  {
    hide Inverse, After, AllWellSent, Increasing, Received, Render, MessagesOf, FramesOf, HasLongRun;
    ContactKeepsExactlyOnce(consumer, start, log, c, codec);
    match c {
      case Subscribe(_, items, cut, taken) =>
        if 0 < j <= |items| && |Render(FramesOf(items[..j]))| <= cut &&
           !HasLongRun(Render(FramesOf(items[..j])), Channel.CHANNEL_LIMIT) {
          WholeFramesArrive(items, j, cut, codec);
        }
      case Page(_, _, _) =>
        AfterGrows(log, c.log, start, codec.number);
        if consumer.processed != [] {
          AfterSuffix(c.log, start, consumer.processed, codec.number);
        }
    }
  }

  // From history to live.

  lemma {:induction false} LogsGrow<M(!new)>(contacts: seq<Contact<M>>, consumer: Consumer<M>, log: seq<M>,
                                             codec: Codec<M>)
    requires PossibleRun(contacts, consumer, log, codec)
    ensures log <= LastLog(contacts, log)
    ensures contacts != [] ==> contacts[0].log <= LastLog(contacts, log)
    decreases |contacts|
  {
    hide After, Received, Render, FramesOf, MessagesOf, AllWellSent, Increasing;
    if contacts != [] {
      LogsGrow(contacts[1..], Advance(consumer, contacts[0], log, codec), contacts[0].log, codec);
    }
  }

  predicate AllPages<M>(contacts: seq<Contact<M>>) {
    forall i :: 0 <= i < |contacts| ==> contacts[i].Page?
  }

  /**
   * Paging ends: more pages than the last log has entries left to read, and at the latest the last one
   * found everything processed that was there at the first; with nothing published in between, that
   * is all there is.
   */
  lemma {:induction false} PagingEnds<M(!new)>(pages: seq<Contact<M>>, consumer: Consumer<M>, start: int, log: seq<M>,
                                               codec: Codec<M>)
    requires PossibleRun(pages, consumer, log, codec) && Inverse(codec.encode, codec.decode)
    requires ExactlyOnce(consumer, start, log, codec.number) && Increasing(log, codec.number)
    requires AllPages(pages) && |pages| > |After(LastLog(pages, log), consumer.cursor, codec.number)|
    ensures var end, last := RunOf(pages, consumer, log, codec), LastLog(pages, log);
            && After(pages[0].log, start, codec.number) <= end.processed
            && (pages[0].log == last ==> end.processed == After(last, start, codec.number))
            && (pages[0].log == last ==> IsTheRest(end.processed, last, start, codec.number))
    decreases |pages|
  {
    hide Inverse, After, Increasing, ExactlyOnce, Possible, Advance, Gained, IsTheRest, StartsTheRest;
    var c, last := pages[0], LastLog(pages, log);
    var next := Advance(consumer, c, log, codec);
    PossibleLogs(consumer, c, log, codec);
    ContactKeepsExactlyOnce(consumer, start, log, c, codec);
    ContactMakesProgress(consumer, start, log, c, 0, codec);
    RunIsExactlyOnce(pages[1..], next, start, c.log, codec);
    LogsGrow(pages, consumer, log, codec);
    if Gained(c, consumer.cursor, codec) != [] {
      LessIsLeft(consumer, start, c, log, last, codec);
      PagingEnds(pages[1..], next, start, c.log, codec);
      PossibleLogs(next, pages[1], c.log, codec);
      AfterGrows(c.log, pages[1].log, start, codec.number);
    }
    AllOfALog(RunOf(pages, consumer, log, codec), start, last, codec.number);
    ProcessedFrom(RunOf(pages, consumer, log, codec), start, last, codec.number);
  }

  lemma {:induction false} PossibleLogs<M(!new)>(consumer: Consumer<M>, c: Contact<M>, log: seq<M>, codec: Codec<M>)
    requires Possible(c, consumer.cursor, log, codec)
    ensures log <= c.log && Increasing(c.log, codec.number)
    ensures c.Page? ==> c.count <= |After(c.log, consumer.cursor, codec.number)|
  {
    hide After, Increasing, Received, Render, FramesOf, MessagesOf, AllWellSent;
  }

  lemma {:induction false} AllOfALog<M>(consumer: Consumer<M>, start: int, log: seq<M>, number: M -> int)
    requires ExactlyOnce(consumer, start, log, number)
    ensures After(log, start, number) <= consumer.processed ==> consumer.processed == After(log, start, number)
  {
  }

  /** A contact that gained something leaves less of any later log too. */
  lemma {:induction false} LessIsLeft<M(!new)>(consumer: Consumer<M>, start: int, c: Contact<M>, log: seq<M>,
                                               last: seq<M>, codec: Codec<M>)
    requires Possible(c, consumer.cursor, log, codec) && c.Page? && Gained(c, consumer.cursor, codec) != []
    requires c.log <= last && Increasing(last, codec.number)
    ensures |After(last, Advance(consumer, c, log, codec).cursor, codec.number)| <
            |After(last, consumer.cursor, codec.number)|
  {
    hide After, Increasing;
    AfterGrows(c.log, last, consumer.cursor, codec.number);
    AfterSuffix(last, consumer.cursor, Gained(c, consumer.cursor, codec), codec.number);
  }

  lemma {:induction false} RunAppend<M(!new)>(a: seq<Contact<M>>, b: seq<Contact<M>>, consumer: Consumer<M>,
                                              log: seq<M>, codec: Codec<M>)
    requires PossibleRun(a + b, consumer, log, codec)
    ensures PossibleRun(a, consumer, log, codec)
    ensures var mid := RunOf(a, consumer, log, codec);
            && PossibleRun(b, mid, LastLog(a, log), codec)
            && RunOf(a + b, consumer, log, codec) == RunOf(b, mid, LastLog(a, log), codec)
            && LastLog(a + b, log) == LastLog(b, LastLog(a, log))
    decreases |a|
  {
    hide Possible, Advance;
    if a == [] {
      assert a + b == b;
    } else {
      assert (a + b)[1..] == a[1..] + b;
      RunAppend(a[1..], b, Advance(consumer, a[0], log, codec), a[0].log, codec);
    }
  }

  /** An empty page means that everything in the log by then has been processed, and its cursor says so. */
  lemma {:induction false} EmptyPageIsCaughtUp<M(!new)>(before: seq<Contact<M>>, page: Contact<M>, start: int,
                                                        log: seq<M>, codec: Codec<M>)
    requires PossibleRun(before + [page], Consumer([], start), log, codec)
    requires Inverse(codec.encode, codec.decode) && Increasing(log, codec.number)
    requires page.Page? && page.count == 0
    ensures var mid := RunOf(before + [page], Consumer([], start), log, codec);
            && mid == Consumer(After(page.log, start, codec.number), page.next)
            && ExactlyOnce(mid, start, page.log, codec.number) && Increasing(page.log, codec.number)
  {
    hide Inverse, After, Increasing;
    RunAppend(before, [page], Consumer([], start), log, codec);
    RunIsExactlyOnce(before, Consumer([], start), start, log, codec);
    var mid, now := RunOf(before, Consumer([], start), log, codec), LastLog(before, log);
    ContactKeepsExactlyOnce(mid, start, now, page, codec);
    ContactMakesProgress(mid, start, now, page, 0, codec);
  }

  /**
   * Handing over from history to live: whatever happened before, when a page comes back empty everything
   * in the log by then has been processed; and whatever follows, be it one subscription or many that
   * break off, adds exactly a prefix of what is published after that.
   */
  lemma {:induction false} HistoryThenLive<M(!new)>(before: seq<Contact<M>>, page: Contact<M>, after: seq<Contact<M>>,
                                                    start: int, log: seq<M>, codec: Codec<M>)
    requires PossibleRun(before + [page] + after, Consumer([], start), log, codec)
    requires Inverse(codec.encode, codec.decode) && Increasing(log, codec.number)
    requires page.Page? && page.count == 0
    ensures var end := RunOf(before + [page] + after, Consumer([], start), log, codec);
            var history, last := After(page.log, start, codec.number), LastLog(after, page.log);
            && history <= end.processed <= After(last, start, codec.number)
            && end.processed[|history|..] <= After(last, page.next, codec.number)
            && IsTheRest(history, page.log, start, codec.number)
  {
    hide Inverse, After, Increasing, PossibleRun, RunOf, ExactlyOnce, IsTheRest;
    var first, contacts := before + [page], before + [page] + after;
    RunAppend(first, after, Consumer([], start), log, codec);
    EmptyPageIsCaughtUp(before, page, start, log, codec);
    AfterIsAll(page.log, start, codec.number);
    var mid, last := RunOf(first, Consumer([], start), log, codec), LastLog(after, page.log);
    RunIsExactlyOnce(after, mid, start, page.log, codec);
    LogsGrow(after, mid, page.log, codec);
    PrefixLeaves(RunOf(contacts, Consumer([], start), log, codec), mid, start, page.log, last, codec.number);
  }

  /** What is processed later starts the entries after the cursor of now. */
  lemma {:induction false} PrefixLeaves<M>(end: Consumer<M>, mid: Consumer<M>, start: int, log: seq<M>, last: seq<M>,
                                           number: M -> int)
    requires ExactlyOnce(mid, start, log, number) && ExactlyOnce(end, start, last, number)
    requires log <= last && Increasing(last, number) && mid.processed <= end.processed
    ensures end.processed <= After(last, start, number)
    ensures end.processed[|mid.processed|..] <= After(last, mid.cursor, number)
  {
    hide After, Increasing;
    if mid.processed != [] {
      AfterSuffix(last, start, mid.processed, number);
    }
  }
}
