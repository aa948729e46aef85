/** 64-bit decimal integers as text: cursors in queries and event ids in streams. */
module Numbers {
  import opened Text

  const TWO_TO_63 := 0x8000_0000_0000_0000

  predicate IsInt64(n: int) {
    -TWO_TO_63 <= n < TWO_TO_63
  }

  function ParseDigits(s: string): Option<nat> {
    if s == "" then Some(0)
    else
      var c := s[|s| - 1];
      match ParseDigits(s[..|s| - 1])
      case Some(n) => if '0' <= c <= '9' then Some(10 * n + (c as int - '0' as int)) else None
      case None => None
  }

  /** A decimal integer with an optional sign that fits 64 bits, and nothing else. */
  function ParseInt(s: string): (r: Option<int>)
    ensures r.Some? ==> IsInt64(r.value)
  {
    var digits := if s != "" && (s[0] == '+' || s[0] == '-') then s[1..] else s;
    if digits == "" then None
    else
      match ParseDigits(digits)
      case None => None
      case Some(n) =>
        var value := if s[0] == '-' then 0 - n as int else n as int;
        if IsInt64(value) then Some(value) else None
  }

  function FormatNat(n: nat): (s: string)
    ensures s != "" && '0' <= s[0] <= '9'
  {
    var digit := ['0' + (n % 10) as char];
    if n < 10 then digit else FormatNat(n / 10) + digit
  }

  function FormatInt(n: int): string {
    if n < 0 then "-" + FormatNat(-n) else FormatNat(n)
  }

  lemma {:induction false} FormatThenParseDigits(n: nat)
    ensures ParseDigits(FormatNat(n)) == Some(n)
  {
    var c := '0' + (n % 10) as char;
    if n < 10 {
      assert FormatNat(n)[..0] == "";
    } else {
      FormatThenParseDigits(n / 10);
      assert FormatNat(n)[..|FormatNat(n)| - 1] == FormatNat(n / 10);
    }
  }

  /** A cursor written into a query or an id line is read back as the same number. */
  lemma {:induction false} FormatThenParse(n: int)
    requires IsInt64(n)
    ensures ParseInt(FormatInt(n)) == Some(n)
  {
    FormatThenParseDigits(if n < 0 then -n else n);
    if n < 0 {
      assert FormatInt(n)[1..] == FormatNat(-n);
    }
  }

  // Which texts are numbers.

  function Zeros(k: nat): string {
    seq(k, _ => '0')
  }

  /** A text stands for a number if it is its decimal digits after a sign, if any, and any number of zeros. */
  ghost predicate Denotes(s: string, n: int) {
    exists k: nat :: DenotesWith(s, n, k)
  }

  predicate DenotesWith(s: string, n: int, k: nat) {
    || (n >= 0 && (s == Zeros(k) + FormatNat(n) || s == "+" + (Zeros(k) + FormatNat(n))))
    || (n <= 0 && s == "-" + (Zeros(k) + FormatNat(-n)))
  }

  lemma {:induction false} ParseZeros(k: nat, n: nat)
    ensures ParseDigits(Zeros(k) + FormatNat(n)) == Some(n)
  {
    if n < 10 {
      ParseOnlyZeros(k);
      assert (Zeros(k) + FormatNat(n))[..k] == Zeros(k);
    } else {
      ParseZeros(k, n / 10);
      var s := Zeros(k) + FormatNat(n);
      assert s[..|s| - 1] == Zeros(k) + FormatNat(n / 10);
    }
  }

  lemma {:induction false} ParseOnlyZeros(k: nat)
    ensures ParseDigits(Zeros(k)) == Some(0)
  {
    if k > 0 {
      assert Zeros(k)[..k - 1] == Zeros(k - 1);
      ParseOnlyZeros(k - 1);
    }
  }

  lemma {:induction false} DigitsOf(s: string) returns (k: nat)
    requires s != "" && ParseDigits(s).Some?
    ensures s == Zeros(k) + FormatNat(ParseDigits(s).value)
  {
    var before, c := s[..|s| - 1], s[|s| - 1];
    assert s == before + [c];
    if before == "" {
      k := 0;
      assert s == "" + [c];
    } else {
      k := DigitsOf(before);
      var m := ParseDigits(before).value;
      if m == 0 {
        k := k + 1;
        assert before == Zeros(k);
      } else {
        assert FormatNat(10 * m + (c as int - '0' as int)) == FormatNat(m) + [c];
      }
    }
  }

  lemma {:induction false} DigitsAreNoSign(k: nat, n: nat)
    ensures var s := Zeros(k) + FormatNat(n); s != "" && s[0] != '+' && s[0] != '-'
  {
  }

  /** A text is read as a number if and only if it stands for it, and the number fits 64 bits. */
  lemma {:induction false} ParseIntExactly(s: string, n: int)
    ensures ParseInt(s) == Some(n) <==> Denotes(s, n) && -9223372036854775808 <= n <= 9223372036854775807
  {
    hide ParseDigits, FormatNat, Zeros;
    if ParseInt(s) == Some(n) {
      ParsedDenotes(s, n);
    }
    if Denotes(s, n) {
      var k: nat :| DenotesWith(s, n, k);
      var m: nat := if n >= 0 then n else -n;
      ParseZeros(k, m);
      DigitsAreNoSign(k, m);
      var digits := Zeros(k) + FormatNat(m);
      assert ("+" + digits)[1..] == digits && ("-" + digits)[1..] == digits;
    }
  }

  lemma {:induction false} ParsedDenotes(s: string, n: int)
    requires ParseInt(s) == Some(n)
    ensures Denotes(s, n)
  {
    hide ParseDigits, FormatNat, Zeros;
    var signed := s[0] == '+' || s[0] == '-';
    var digits := if signed then s[1..] else s;
    var k := DigitsOf(digits);
    assert signed ==> s == [s[0]] + digits;
    assert DenotesWith(s, n, k);
  }

  /** The digits stand in their usual order, and a negative number has its sign in front. */
  lemma {:induction false} DigitOrder()
    ensures FormatInt(120) == "120" && FormatInt(-120) == "-120" && FormatInt(0) == "0"
  {
    assert FormatNat(1) == "1" && FormatNat(12) == FormatNat(1) + "2" == "12";
    assert FormatNat(120) == FormatNat(12) + "0" == "120";
  }
}
