/** The hand-written int64 printer of pkg/sources/source.go. */
module IntFormat {
  import opened Common

  const BUFFER := 20
  const MIN64: int := -0x8000_0000_0000_0000

  predicate IsInt64(v: int) {
    MIN64 <= v <= -1 - MIN64
  }

  /** Go's unary minus on int64 wraps at the smallest value. */
  function Negate(v: int): int {
    if v == MIN64 then MIN64 else -v
  }

  function Digit(d: nat): char
    requires d < 10
  {
    (48 + d) as char
  }

  function Digits(n: nat): string {
    if n == 0 then "" else Digits(n / 10) + [Digit(n % 10)]
  }

  /** What the printer returns. */
  function Formatted(v: int): string
    requires IsInt64(v)
  {
    if v == 0 then "0"
    else if v == MIN64 then "-"
    else if v < 0 then "-" + Digits(-v)
    else Digits(v)
  }

  function Pow10(n: nat): nat {
    if n == 0 then 1 else 10 * Pow10(n - 1)
  }

  lemma DropDigit(v: nat, n: nat)
    requires 0 < v < Pow10(n)
    ensures n > 0 && v / 10 < Pow10(n - 1)
  {
    if n > 0 {
      assert v < 10 * Pow10(n - 1);
    }
  }

  lemma NineteenDigits()
    ensures Pow10(BUFFER - 1) == 10_000_000_000_000_000_000
  {
    assert Pow10(2) == 100;
    assert Pow10(4) == 10_000;
    assert Pow10(6) == 1_000_000;
    assert Pow10(8) == 100_000_000;
    assert Pow10(10) == 10_000_000_000;
    assert Pow10(12) == 1_000_000_000_000;
    assert Pow10(14) == 100_000_000_000_000;
    assert Pow10(16) == 10_000_000_000_000_000;
    assert Pow10(18) == 1_000_000_000_000_000_000;
  }

  /** The last digit of what is left joins what is written. */
  lemma DigitMoves(v: nat, written: string)
    requires v > 0
    ensures Digits(v) + written == Digits(v / 10) + ([Digit(v % 10)] + written)
  {}

  /** Digits are written from the right; the write index never leaves the buffer. */
  method FormatInt64(value: int) returns (s: string)
    requires IsInt64(value)
    ensures s == Formatted(value)
  {
    if value == 0 {
      return "0";
    }
    var negative := value < 0;
    var v := if negative then Negate(value) else value;
    ghost var magnitude: nat := if v < 0 then 0 else v;
    var buf := new char[BUFFER];
    var pos := BUFFER;
    NineteenDigits();
    while v > 0
      invariant 1 <= pos <= BUFFER
      invariant v >= 0 || value == MIN64
      invariant v > 0 ==> v < Pow10(pos - 1)
      invariant Digits(magnitude) == Digits(if v < 0 then 0 else v) + buf[pos..]
    {
      DropDigit(v, pos - 1);
      ghost var written := buf[pos..];
      pos := pos - 1;
      buf[pos] := Digit(v % 10);
      assert buf[pos..] == [Digit(v % 10)] + written;
      DigitMoves(v, written);
      v := v / 10;
    }
    assert buf[pos..] == Digits(magnitude);
    if negative {
      ghost var written := buf[pos..];
      pos := pos - 1;
      buf[pos] := '-';
      assert buf[pos..] == ['-'] + written;
    }
    s := buf[pos..];
  }

  // ----- Reading it back -----

  function ParseDigits(s: string): Option<nat> {
    if s == [] then Some(0)
    else
      var n := |s| - 1;
      match ParseDigits(s[..n])
      case Some(high) =>
        if '0' <= s[n] <= '9' then Some(high * 10 + (s[n] as int - '0' as int)) else None
      case None => None
  }

  function Signed(n: Option<nat>, negative: bool): Option<int> {
    if n.None? then None else
      var v: int := if negative then 0 - n.value else n.value;
      Option<int>.Some(v)
  }

  /** An optional minus sign and at least one digit. */
  function Parse(s: string): Option<int> {
    var negative := s != [] && s[0] == '-';
    var digits := if negative then s[1..] else s;
    if digits == [] then None else Signed(ParseDigits(digits), negative)
  }

  lemma DigitReads(d: nat)
    requires d < 10
    ensures '0' <= Digit(d) <= '9' && Digit(d) as int - '0' as int == d
  {}

  lemma ParseLast(high: string, c: char)
    requires '0' <= c <= '9' && ParseDigits(high).Some?
    ensures ParseDigits(high + [c]) == Some(ParseDigits(high).value * 10 + (c as int - '0' as int))
  {
    assert (high + [c])[..|high|] == high;
  }

  lemma {:induction false} DigitsParse(n: nat)
    ensures ParseDigits(Digits(n)) == Some(n)
    ensures n > 0 ==> Digits(n) != [] && '1' <= Digits(n)[0] <= '9'
  {
    if n > 0 {
      DigitsParse(n / 10);
      DigitReads(n % 10);
      ParseLast(Digits(n / 10), Digit(n % 10));
      assert n == n / 10 * 10 + n % 10;
      if n / 10 == 0 {
        assert Digits(n / 10) == "" && n % 10 == n;
      }
    }
  }

  /** Parsing the output gives the input back for every int64 but the smallest, where the output is a
      bare minus sign. */
  lemma RoundTripExactly(v: int)
    requires -0x8000_0000_0000_0000 <= v < 0x8000_0000_0000_0000
    ensures Parse(Formatted(v)) == Some(v) <==> v != -0x8000_0000_0000_0000
    ensures v == -0x8000_0000_0000_0000 ==> Formatted(v) == "-"
  {
    if v == 0 {
      assert ParseDigits("0") == Some(0) by { assert "0"[..0] == ""; }
    } else if v != MIN64 {
      DigitsParse(if v < 0 then -v else v);
      if v < 0 {
        assert Formatted(v)[1..] == Digits(-v);
      }
    }
  }

  /** No leading zeros. */
  lemma NoLeadingZero(v: int)
    requires IsInt64(v) && v != 0 && v != MIN64
    ensures var s := Formatted(v); var first := if v < 0 then 1 else 0;
            |s| > first && s[first] != '0' && (v < 0 <==> s[0] == '-')
  {
    DigitsParse(if v < 0 then -v else v);
  }
}
