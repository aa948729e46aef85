/** Byte-string helpers the readers share. Each `char` stands for one byte of the stream. */
module Text {

  datatype Option<+T> = None | Some(value: T)

  /** The position of the first `c` in `s`, or `|s|` when there is none. */
  function IndexOf(s: string, c: char): (i: nat)
    ensures i <= |s| && forall k :: 0 <= k < i ==> s[k] != c
    ensures i < |s| ==> s[i] == c
  {
    if s == "" || s[0] == c then 0 else IndexOf(s[1..], c) + 1
  }

  /** `IndexOf` is determined by its contract. */
  lemma {:induction false} IndexOfUnique(s: string, c: char, i: nat)
    requires i <= |s| && forall k :: 0 <= k < i ==> s[k] != c
    requires i < |s| ==> s[i] == c
    ensures IndexOf(s, c) == i
  {
  }

  /** Drops one trailing carriage return. */
  function DropCR(s: string): string {
    if s != "" && s[|s| - 1] == '\r' then s[..|s| - 1] else s
  }

  /** The part of a line before its first colon; the whole line when it has none. */
  function Field(line: string): string {
    line[..IndexOf(line, ':')]
  }

  predicate HasColon(line: string) {
    IndexOf(line, ':') < |line|
  }

  /** The part of a line after its first colon, without one leading space. */
  function Value(line: string): string {
    var i := IndexOf(line, ':');
    if i == |line| then "" else TrimOneSpace(line[i + 1..])
  }

  function TrimOneSpace(s: string): string {
    if s != "" && s[0] == ' ' then s[1..] else s
  }

  /** The field and value of a line written as `name`, colon, `rest`. */
  lemma {:induction false} FieldAndValueOf(name: string, rest: string)
    requires ':' !in name
    ensures Field(name + ":" + rest) == name
    ensures HasColon(name + ":" + rest)
    ensures Value(name + ":" + rest) == TrimOneSpace(rest)
  {
    var line := name + ":" + rest;
    assert line[..|name|] == name;
    IndexOfUnique(line, ':', |name|);
    assert line[|name| + 1..] == rest;
  }

  /** One white space character as Unicode has it, in the bytes of its UTF-8 encoding. */
  predicate IsSpace(q: string) {
    || (|q| == 1 && (q[0] == ' ' || '\t' <= q[0] <= '\r'))
    || (|q| == 2 && q[0] == '\U{C2}' && (q[1] == '\U{85}' || q[1] == '\U{A0}'))
    || (|q| == 3 && q[0] == '\U{E1}' && q[1] == '\U{9A}' && q[2] == '\U{80}')
    || (|q| == 3 && q[0] == '\U{E2}' && q[1] == '\U{80}' &&
        ('\U{80}' <= q[2] <= '\U{8A}' || q[2] == '\U{A8}' || q[2] == '\U{A9}' || q[2] == '\U{AF}'))
    || (|q| == 3 && q[0] == '\U{E2}' && q[1] == '\U{81}' && q[2] == '\U{9F}')
    || (|q| == 3 && q[0] == '\U{E3}' && q[1] == '\U{80}' && q[2] == '\U{80}')
  }

  /** The length of the white space character a text starts with, or 0. */
  function StartSpace(s: string): (n: nat)
    ensures n <= |s|
  {
    if |s| >= 1 && IsSpace(s[..1]) then 1
    else if |s| >= 2 && IsSpace(s[..2]) then 2
    else if |s| >= 3 && IsSpace(s[..3]) then 3
    else 0
  }

  /** The length of the white space character a text ends with, or 0. */
  function EndSpace(s: string): (n: nat)
    ensures n <= |s|
  {
    if |s| >= 1 && IsSpace(s[|s| - 1..]) then 1
    else if |s| >= 2 && IsSpace(s[|s| - 2..]) then 2
    else if |s| >= 3 && IsSpace(s[|s| - 3..]) then 3
    else 0
  }

  function TrimLeft(s: string): string
    decreases |s|
  {
    var n := StartSpace(s);
    if n == 0 then s else TrimLeft(s[n..])
  }

  function TrimRight(s: string): string
    decreases |s|
  {
    var n := EndSpace(s);
    if n == 0 then s else TrimRight(s[..|s| - n])
  }

  function TrimSpace(s: string): string {
    TrimRight(TrimLeft(s))
  }

  /** White space characters written one after another. */
  function Padding(spaces: seq<string>): string {
    if spaces == [] then "" else spaces[0] + Padding(spaces[1..])
  }

  predicate AllSpaces(spaces: seq<string>) {
    forall i :: 0 <= i < |spaces| ==> IsSpace(spaces[i])
  }

  /** A byte that is a visible ASCII character. */
  predicate IsVisible(c: char) {
    33 <= c as int <= 126
  }

  /** Trimming removes exactly the white space around a text that starts and ends with a visible character. */
  lemma {:induction false} TrimSpaceAround(before: seq<string>, t: string, after: seq<string>)
    requires AllSpaces(before) && AllSpaces(after)
    requires t != "" && IsVisible(t[0]) && IsVisible(t[|t| - 1])
    ensures TrimSpace(Padding(before) + t + Padding(after)) == t
  {
    hide IsVisible, TrimLeft, TrimRight, Padding;
    var rest := t + Padding(after);
    assert Padding(before) + t + Padding(after) == Padding(before) + rest;
    TrimLeftPast(before, rest);
    TrimRightPast(t, after);
  }

  lemma {:induction false} StartSpaceOf(q: string, s: string)
    requires IsSpace(q)
    ensures StartSpace(q + s) == |q| && (q + s)[|q|..] == s
  {
    assert (q + s)[..|q|] == q;
  }

  lemma {:induction false} EndSpaceOf(s: string, q: string)
    requires IsSpace(q)
    ensures EndSpace(s + q) == |q| && (s + q)[..|s|] == s
  {
    assert (s + q)[|s|..] == q;
  }

  lemma {:induction false} NoSpaceAt(s: string)
    requires s != ""
    ensures IsVisible(s[0]) ==> StartSpace(s) == 0
    ensures IsVisible(s[|s| - 1]) ==> EndSpace(s) == 0
  {
  }

  lemma {:induction false} TrimLeftPast(before: seq<string>, s: string)
    requires AllSpaces(before)
    requires s != "" && IsVisible(s[0])
    ensures TrimLeft(Padding(before) + s) == s
  {
    hide IsVisible, IsSpace, StartSpace;
    if before == [] {
      assert Padding(before) + s == s;
      NoSpaceAt(s);
    } else {
      var rest := Padding(before[1..]) + s;
      assert Padding(before) + s == before[0] + rest;
      StartSpaceOf(before[0], rest);
      NotEmpty(before[0]);
      TrimLeftPast(before[1..], s);
    }
  }

  lemma {:induction false} NotEmpty(q: string)
    requires IsSpace(q)
    ensures q != ""
  {
  }

  lemma {:induction false} PaddingSnoc(spaces: seq<string>, q: string)
    ensures Padding(spaces + [q]) == Padding(spaces) + q
  {
    if spaces == [] {
      assert spaces + [q] == [q] && [q][1..] == [] && q + "" == q == "" + q;
    } else {
      assert (spaces + [q])[1..] == spaces[1..] + [q];
      PaddingSnoc(spaces[1..], q);
    }
  }

  lemma {:induction false} TrimRightPast(s: string, after: seq<string>)
    requires AllSpaces(after)
    requires s != "" && IsVisible(s[|s| - 1])
    ensures TrimRight(s + Padding(after)) == s
  {
    hide IsVisible, IsSpace, EndSpace;
    if after == [] {
      assert s + Padding(after) == s;
      NoSpaceAt(s);
    } else {
      var n := |after| - 1;
      assert after == after[..n] + [after[n]];
      PaddingSnoc(after[..n], after[n]);
      assert s + Padding(after) == (s + Padding(after[..n])) + after[n];
      EndSpaceOf(s + Padding(after[..n]), after[n]);
      NotEmpty(after[n]);
      TrimRightPast(s, after[..n]);
    }
  }

  // What white space is, and that trimming takes all of it and nothing else.

  /** The white space characters of Unicode, by code point. */
  predicate IsWhiteSpace(code: nat) {
    || 0x09 <= code <= 0x0D || code == 0x20 || code == 0x85 || code == 0xA0 || code == 0x1680
    || 0x2000 <= code <= 0x200A || code == 0x2028 || code == 0x2029 || code == 0x202F || code == 0x205F
    || code == 0x3000
  }

  /** The bytes of a code point below 0x10000, as in section 3 of RFC 3629. */
  function Utf8(code: nat): string
    requires code < 0x1_0000
  {
    if code < 0x80 then [code as char]
    else if code < 0x800 then [(0xC0 + code / 64) as char, (0x80 + code % 64) as char]
    else [(0xE0 + code / 4096) as char, (0x80 + code / 64 % 64) as char, (0x80 + code % 64) as char]
  }

  lemma {:induction false} SpaceIsUnicode(code: nat)
    requires code < 0x1_0000
    ensures IsSpace(Utf8(code)) <==> IsWhiteSpace(code)
  {
    assert code == code / 4096 * 4096 + code / 64 % 64 * 64 + code % 64;
  }

  /**
   * Trimming splits a text into white space, what is kept, and white space; what is kept neither starts
   * nor ends with any.
   */
  lemma {:induction false} TrimSpaceExactly(s: string) returns (before: seq<string>, after: seq<string>)
    ensures AllSpaces(before) && AllSpaces(after)
    ensures s == Padding(before) + TrimSpace(s) + Padding(after)
    ensures forall q :: IsSpace(q) ==> !StartsWith(TrimSpace(s), q) && !EndsWith(TrimSpace(s), q)
  {
    hide IsSpace, Padding, TrimLeft, TrimRight;
    before := TrimLeftTakes(s);
    after := TrimRightTakes(TrimLeft(s));
    var kept := TrimSpace(s);
    assert TrimLeft(s) == kept + Padding(after);
    forall q | IsSpace(q)
      ensures !StartsWith(kept, q)
    {
      assert StartsWith(kept, q) ==> StartsWith(TrimLeft(s), q);
    }
    assert s == Padding(before) + (kept + Padding(after));
  }

  predicate StartsWith(s: string, q: string) {
    q <= s
  }

  predicate EndsWith(s: string, q: string) {
    |q| <= |s| && s[|s| - |q|..] == q
  }

  lemma {:induction false} TrimLeftTakes(s: string) returns (before: seq<string>)
    ensures AllSpaces(before) && s == Padding(before) + TrimLeft(s)
    ensures forall q :: IsSpace(q) ==> !StartsWith(TrimLeft(s), q)
    decreases |s|
  {
    hide IsSpace, StartSpace, Padding;
    var n := StartSpace(s);
    StartSpaceIs(s);
    if n == 0 {
      before := [];
      NoPadding();
      assert s == "" + s;
    } else {
      var rest := TrimLeftTakes(s[n..]);
      before := [s[..n]] + rest;
      PaddingCons(s[..n], rest);
      assert s[..n] + s[n..] == (s[..n] + Padding(rest)) + TrimLeft(s[n..]);
    }
  }

  lemma {:induction false} StartSpaceIs(s: string)
    ensures var n := StartSpace(s); if n == 0 then forall q :: IsSpace(q) ==> !StartsWith(s, q) else IsSpace(s[..n])
  {
    forall q | IsSpace(q)
      ensures StartsWith(s, q) ==> StartSpace(s) != 0
    {
      assert StartsWith(s, q) ==> s[..|q|] == q;
    }
  }

  lemma {:induction false} TrimRightTakes(s: string) returns (after: seq<string>)
    ensures AllSpaces(after) && s == TrimRight(s) + Padding(after)
    ensures forall q :: IsSpace(q) ==> !EndsWith(TrimRight(s), q)
    decreases |s|
  {
    hide IsSpace, EndSpace, Padding;
    var n := EndSpace(s);
    EndSpaceIs(s);
    if n == 0 {
      after := [];
      NoPadding();
      assert s == s + "";
    } else {
      var m := |s| - n;
      var rest := TrimRightTakes(s[..m]);
      after := rest + [s[m..]];
      PaddingSnoc(rest, s[m..]);
      assert s[..m] + s[m..] == TrimRight(s[..m]) + (Padding(rest) + s[m..]);
    }
  }

  lemma {:induction false} PaddingCons(q: string, spaces: seq<string>)
    ensures Padding([q] + spaces) == q + Padding(spaces)
  {
    assert ([q] + spaces)[1..] == spaces;
  }

  lemma {:induction false} NoPadding()
    ensures Padding([]) == ""
  {
  }

  lemma {:induction false} EndSpaceIs(s: string)
    ensures var n := EndSpace(s); if n == 0 then forall q :: IsSpace(q) ==> !EndsWith(s, q) else IsSpace(s[|s| - n..])
  {
    forall q | IsSpace(q)
      ensures EndsWith(s, q) ==> EndSpace(s) != 0
    {
    }
  }
}
