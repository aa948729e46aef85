/** The line scanner under every stream reader: bytes arrive in reads of any size, lines go out. */
module Lines {
  import opened Text

  /** What a scan of a whole stream yields: its lines, and whether a line over the limit ended it. */
  datatype Scanned = Scanned(lines: seq<string>, tooLong: bool)

  /**
   * The lines of `s`: split at LF, one trailing CR dropped from each, a non-empty last line kept
   * without its LF. A line whose first `limit` bytes hold no LF stops the scan.
   */
  function Split(s: string, limit: nat): Scanned
    decreases |s|
  {
    if s == "" then Scanned([], false)
    else
      var i := IndexOf(s, '\n');
      if i >= limit then Scanned([], true)
      else if i == |s| then Scanned([DropCR(s)], false)
      else
        var rest := Split(s[i + 1..], limit);
        Scanned([DropCR(s[..i])] + rest.lines, rest.tooLong)
  }

  /** A scan over a body that returns its bytes in reads of any non-zero size. */
  class Scanner {
    const limit: nat
    var unread: string  // bytes the body has not returned yet
    var carry: string   // bytes read but not yet part of a returned line
    var ended: bool     // the body has reported its end, clean or not
    var tooLong: bool   // a line filled the buffer

    ghost predicate Valid()
      reads this
    {
      |carry| <= limit && limit > 0 && (ended ==> unread == "" && |carry| < limit)
    }

    ghost function Remaining(): string
      reads this
    {
      carry + unread
    }

    constructor (body: string, limit: nat)
      requires limit > 0
      ensures Valid() && Remaining() == body && this.limit == limit && !tooLong
    {
      this.limit := limit;
      unread, carry, ended, tooLong := body, "", false, false;
    }

    /** Returns the next line, whatever sizes the reads underneath happen to have. */
    method Scan() returns (ok: bool, line: string)
      requires Valid() && !tooLong
      modifies this
      ensures Valid()
      ensures Returns(old(Remaining()), limit, ok, line, Remaining(), tooLong)
    {
      hide Split;
      ghost var input := Remaining();
      while true
        invariant Valid() && !tooLong && Remaining() == input
        decreases |unread|, !ended
      {
        if carry != "" || ended {
          var i := IndexOf(carry, '\n');
          if i < |carry| {
            CompleteLine(carry, unread, limit);
            line := DropCR(carry[..i]);
            carry := carry[i + 1..];
            return true, line;
          }
          if ended {
            LastLine(carry, limit);
            assert input == carry;
            if carry == "" {
              return false, "";
            }
            line := DropCR(carry);
            carry := "";
            return true, line;
          }
        }
        if |carry| >= limit {
          FullBuffer(carry, unread, limit);
          tooLong := true;
          return false, "";
        }
        Read();
      }
    }

    /** One read: the end of the body, or any non-empty part of what is left that the buffer has room for. */
    method Read()
      requires Valid() && !ended && |carry| < limit
      modifies this`unread, this`carry, this`ended
      ensures Valid() && Remaining() == old(Remaining())
      ensures if old(unread) == "" then ended else !ended && |unread| < |old(unread)|
    {
      if unread == "" {
        ended := true;
      } else {
        var n: nat :| 1 <= n <= |unread| && |carry| + n <= limit;
        assert carry + unread == carry + unread[..n] + unread[n..];
        carry, unread := carry + unread[..n], unread[n..];
      }
    }
  }

  /** What one call of `Scan` on the remaining bytes `before` has to do, in terms of the whole split. */
  ghost predicate Returns(before: string, limit: nat, ok: bool, line: string, after: string, tooLong: bool) {
    var b, a := Split(before, limit), Split(after, limit);
    if ok
    then b == Scanned([line] + a.lines, a.tooLong) && !tooLong && |after| < |before|
    else b == Scanned([], tooLong)
  }

  /** `seen` and the lines of the remaining bytes are all the lines. */
  ghost predicate SoFar(seen: seq<string>, remaining: string, limit: nat, all: Scanned) {
    var rest := Split(remaining, limit);
    all == Scanned(seen + rest.lines, rest.tooLong)
  }

  lemma {:induction false} SoFarStart(s: string, limit: nat)
    ensures SoFar([], s, limit, Split(s, limit))
  {
  }

  lemma {:induction false} SoFarStep(seen: seq<string>, before: string, limit: nat, all: Scanned, ok: bool,
                                     line: string, after: string, tooLong: bool)
    requires SoFar(seen, before, limit, all) && Returns(before, limit, ok, line, after, tooLong)
    ensures if ok then seen + [line] <= all.lines && SoFar(seen + [line], after, limit, all)
            else all == Scanned(seen, tooLong)
  {
  }

  /** A line feed in the buffer ends the first line, whatever has yet to be read. */
  lemma {:induction false} CompleteLine(carry: string, unread: string, limit: nat)
    requires IndexOf(carry, '\n') < |carry| <= limit
    ensures var i := IndexOf(carry, '\n');
            Returns(carry + unread, limit, true, DropCR(carry[..i]), carry[i + 1..] + unread, false)
  {
    var i := IndexOf(carry, '\n');
    assert carry + unread == carry[..i] + "\n" + (carry[i + 1..] + unread);
    FirstLine(carry[..i], carry[i + 1..] + unread, limit);
  }

  /** The split of a stream written as a first line, a line feed and the rest. */
  lemma {:induction false} FirstLine(first: string, rest: string, limit: nat)
    requires '\n' !in first && |first| < limit
    ensures var after := Split(rest, limit);
            Split(first + "\n" + rest, limit) == Scanned([DropCR(first)] + after.lines, after.tooLong)
  {
    var s, i := first + "\n" + rest, |first|;
    IndexOfUnique(s, '\n', i);
    assert s[..i] == first;
    assert s[i + 1..] == rest;
  }

  /** At the end of the body, what is left without a line feed is the last line. */
  lemma {:induction false} LastLine(carry: string, limit: nat)
    requires IndexOf(carry, '\n') == |carry| < limit
    ensures if carry == "" then Returns(carry, limit, false, "", "", false)
            else Returns(carry, limit, true, DropCR(carry), "", false)
  {
  }

  /** A full buffer without a line feed is a line over the limit, whatever has yet to be read. */
  lemma {:induction false} FullBuffer(carry: string, unread: string, limit: nat)
    requires IndexOf(carry, '\n') == |carry| == limit > 0
    ensures Returns(carry + unread, limit, false, "", carry + unread, true)
  {
    var s := carry + unread;
    assert forall k :: 0 <= k < limit ==> s[k] == carry[k];
  }

  /**
   * What a line is, in bytes: LF and CRLF end it, only one CR goes with the LF, and a last line needs no
   * end. Together with the limit this determines the lines of every stream.
   */
  lemma {:induction false} LineEndings(text: string, rest: string, limit: nat)
    requires '\n' !in text && |text| + 1 < limit
    ensures var after := Split(rest, limit);
            && Split(text + "\r\n" + rest, limit) == Scanned([text] + after.lines, after.tooLong)
            && (!EndsInCR(text) ==> Split(text + "\n" + rest, limit) == Scanned([text] + after.lines, after.tooLong))
    ensures Split(text + "\r", limit) == Scanned([text], false)
    ensures text != "" && !EndsInCR(text) ==> Split(text, limit) == Scanned([text], false)
    ensures Split("", limit) == Scanned([], false)
  {
    hide Split;
    var ended := text + "\r";
    assert text + "\r\n" + rest == ended + "\n" + rest && DropCR(ended) == text;
    FirstLine(ended, rest, limit);
    FirstLine(text, rest, limit);
    LastLineAlone(ended, limit);
    LastLineAlone(text, limit);
    LastLineAlone("", limit);
  }

  predicate EndsInCR(s: string) {
    s != "" && s[|s| - 1] == '\r'
  }

  lemma {:induction false} LastLineAlone(text: string, limit: nat)
    requires '\n' !in text && |text| < limit
    ensures Split(text, limit) == Scanned(if text == "" then [] else [DropCR(text)], false)
  {
    IndexOfUnique(text, '\n', |text|);
  }
}
