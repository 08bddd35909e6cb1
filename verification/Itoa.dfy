/** itoa of internal/server/server.go: a 64-bit integer, a fixed buffer filled from the end. */
module Itoa {
  const MIN: int := -0x8000_0000_0000_0000
  const MAX: int := 0x7FFF_FFFF_FFFF_FFFF

  /** Unary minus on a 64-bit word wraps at the minimum. */
  function Negate(n: int): int {
    if n == MIN then MIN else -n
  }

  function Digit(d: nat): char
    requires d < 10
  {
    '0' + d as char
  }

  /** The decimal numeral, most significant digit first. */
  function Digits(n: nat): (s: string)
    ensures |s| > 0
  {
    if n < 10 then [Digit(n)] else Digits(n / 10) + [Digit(n % 10)]
  }

  function Decimal(n: int): string {
    if n < 0 then "-" + Digits(-n) else Digits(n)
  }

  predicate IsNumeral(s: string) {
    |s| > 0 && forall i :: 0 <= i < |s| ==> '0' <= s[i] <= '9'
  }

  function Value(s: string): nat
    requires forall i :: 0 <= i < |s| ==> '0' <= s[i] <= '9'
  {
    if s == "" then 0 else 10 * Value(s[..|s| - 1]) + (s[|s| - 1] as int - '0' as int)
  }

  /** A reader of decimal integers. */
  function Parse(s: string): int
    requires IsNumeral(s) || (|s| > 0 && s[0] == '-' && IsNumeral(s[1..]))
  {
    if s[0] == '-' then (var v: int := Value(s[1..]); -v) else Value(s)
  }

  lemma {:induction false} DigitsReadBack(n: nat)
    ensures IsNumeral(Digits(n)) && Value(Digits(n)) == n
    ensures Digits(n)[0] == '0' ==> n == 0
  {
    var s := Digits(n);
    if n >= 10 {
      DigitsReadBack(n / 10);
      assert s[..|s| - 1] == Digits(n / 10);
    } else {
      assert s[..0] == "";
    }
  }

  /** The numeral is canonical and reads back as the number. */
  lemma DecimalReadsBack(n: int)
    ensures var s := Decimal(n);
      && (IsNumeral(s) || (s[0] == '-' && IsNumeral(s[1..])))
      && Parse(s) == n
      && (s[0] == '-' <==> n < 0)
      && (s[if n < 0 then 1 else 0] == '0' <==> n == 0)
  {
    var m := if n < 0 then -n else n;
    DigitsReadBack(m);
    if n < 0 {
      assert Decimal(n)[1..] == Digits(m);
    }
  }

  function Pow10(k: nat): nat {
    if k == 0 then 1 else 10 * Pow10(k - 1)
  }

  lemma {:induction false} FewDigits(n: nat, k: nat)
    requires k > 0 && n < Pow10(k)
    ensures |Digits(n)| <= k
  {
    assert Pow10(1) == 10 * Pow10(0);
    if n >= 10 {
      FewDigits(n / 10, k - 1);
    }
  }

  lemma NineteenDigits()
    ensures MAX < Pow10(19)
  {
    assert Pow10(5) == 100_000;
    assert Pow10(10) == 10_000_000_000;
    assert Pow10(15) == 1_000_000_000_000_000;
    assert Pow10(19) == 10_000_000_000_000_000_000;
  }

  /** What the loop writes: nothing for a number that is not positive. */
  function Written(n: int): string {
    if n > 0 then Digits(n) else ""
  }

  lemma OneDigit(n: int)
    requires n > 0
    ensures Written(n) == Written(n / 10) + [Digit(n % 10)]
  {
  }

  lemma OneMoreDigit(number: int, n: int, tail: string)
    requires n > 0 && Written(number) == Written(n) + tail
    ensures Written(number) == Written(n / 10) + ([Digit(n % 10)] + tail)
  {
    OneDigit(n);
    assert Written(n / 10) + [Digit(n % 10)] + tail == Written(n / 10) + ([Digit(n % 10)] + tail);
  }

  lemma WrittenFits(n: int)
    requires n <= MAX
    ensures |Written(n)| <= 19
  {
    if n > 0 {
      NineteenDigits();
      FewDigits(n, 19);
    }
  }

  /** One byte more, before those written. */
  method PutBefore(buf: array<char>, i: nat, c: char) returns (j: nat)
    requires 0 < i <= buf.Length
    modifies buf
    ensures j == i - 1 && buf[j..] == [c] + old(buf[i..])
  {
    j := i - 1;
    buf[j] := c;
  }

  /** The digit loop, from the end of the buffer. */
  method FillDigits(buf: array<char>, number: int) returns (i: nat)
    requires buf.Length == 20 && number <= MAX
    modifies buf
    ensures 1 <= i <= 20 && buf[i..] == Written(number)
  {
    WrittenFits(number);
    var n := number;
    i := buf.Length;
    while n > 0
      invariant i <= 20 && Written(number) == Written(n) + buf[i..]
    {
      OneMoreDigit(number, n, buf[i..]);
      var digit, rest := Digit(n % 10), n / 10;
      i := PutBefore(buf, i, digit);
      n := rest;
    }
  }

  /** Every index stays inside the 20 bytes, and the result is the canonical numeral;
      except for the minimum, whose magnitude does not fit and whose result is "-". */
  method Itoa(num: int) returns (s: string)
    requires MIN <= num <= MAX
    ensures num != MIN ==> s == Decimal(num)
    ensures num == MIN ==> s == "-"
  {
    if num == 0 {
      return "0";
    }
    var n := num;
    var neg := n < 0;
    if neg {
      n := Negate(n);
    }
    var buf := new char[20];
    var i := FillDigits(buf, n);
    if neg {
      i := PutBefore(buf, i, '-');
    }
    return buf[i..];
  }

  /** What Itoa returns for the minimum is the numeral of no number at all. */
  lemma NoNumberPrintsAsADash(n: int)
    ensures Decimal(n) != "-"
  {
    DecimalReadsBack(n);
  }
}
