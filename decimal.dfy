/**
 * Decimal text as avr-libc's itoa(value, buf, 10) writes it: the digits of
 * the magnitude without leading zeros, preceded by '-' for a negative value.
 */
module Decimal {

  predicate IsDigit(c: char)
  {
    '0' <= c <= '9'
  }

  function DigitChar(d: int): (c: char)
    requires 0 <= d < 10
    ensures IsDigit(c) && DigitValue(c) == d
  {
    "0123456789"[d]
  }

  function DigitValue(c: char): (d: int)
    requires IsDigit(c)
    ensures 0 <= d < 10
  {
    c as int - '0' as int
  }

  /** The digits of n, most significant first, "0" for zero. */
  function Digits(n: nat): (s: string)
    ensures |s| > 0 && forall i :: 0 <= i < |s| ==> IsDigit(s[i])
    ensures n < 10 <==> |s| == 1
  {
    if n < 10 then [DigitChar(n)] else Digits(n / 10) + [DigitChar(n % 10)]
  }

  /** The number a string of digits denotes. */
  function ParseDigits(s: string): nat
    requires forall i :: 0 <= i < |s| ==> IsDigit(s[i])
  {
    if s == [] then 0 else 10 * ParseDigits(s[..|s| - 1]) + DigitValue(s[|s| - 1])
  }

  /** Reading the digits of n gives n back. */
  lemma {:induction false} DigitsRoundTrip(n: nat)
    ensures ParseDigits(Digits(n)) == n
  {
    if n >= 10 {
      DigitsRoundTrip(n / 10);
      var s := Digits(n);
      assert s[..|s| - 1] == Digits(n / 10);
    }
  }

  /** A number below 10^k has at most k digits. */
  lemma {:induction false} DigitsLength(n: nat, k: nat, p: nat)
    requires k > 0 && p == Pow10(k) && n < p
    ensures |Digits(n)| <= k
  {
    if n >= 10 {
      var q := Pow10(k - 1);
      assert n / 10 < q;
      DigitsLength(n / 10, k - 1, q);
    }
  }

  function Pow10(k: nat): (p: nat)
    ensures p >= 1
  {
    if k == 0 then 1 else 10 * Pow10(k - 1)
  }

  /** itoa(n, buf, 10): a '-' for a negative n, then the digits of its magnitude. */
  function Itoa(n: int): (s: string)
    ensures |s| > 0 && (n < 0 <==> s[0] == '-')
    ensures forall i :: 0 <= i < |s| ==> s[i] != '\0'
  {
    if n < 0 then "-" + Digits(-n) else Digits(n)
  }

  /** The value itoa's text denotes. */
  function ParseInt(s: string): int
    requires s != [] && (s[0] == '-' ==> |s| > 1)
    requires forall i :: 0 < i < |s| ==> IsDigit(s[i])
    requires s[0] == '-' || IsDigit(s[0])
  {
    if s[0] == '-' then -(ParseDigits(s[1..]) as int) else ParseDigits(s)
  }

  /** Reading itoa's text gives the number back. */
  lemma ItoaRoundTrip(n: int)
    ensures var s := Itoa(n);
      (s[0] == '-' ==> |s| > 1) && (forall i :: 0 < i < |s| ==> IsDigit(s[i])) &&
      (s[0] == '-' || IsDigit(s[0])) && ParseInt(s) == n
  {
    if n < 0 {
      DigitsRoundTrip(-n);
      assert Itoa(n)[1..] == Digits(-n);
    } else {
      DigitsRoundTrip(n);
    }
  }

  /** C's `/` on integers: the quotient truncated toward zero. */
  function Quot(a: int, b: int): int
    requires b > 0
  {
    if a < 0 then -((-a) / b) else a / b
  }

  /** C's `%` on integers: the remainder takes the sign of the dividend. */
  function Rem(a: int, b: int): (r: int)
    requires b > 0
    ensures a == Quot(a, b) * b + r && -b < r < b && (r < 0 ==> a < 0) && (r > 0 ==> a > 0)
  {
    if a < 0 then -((-a) % b) else a % b
  }

  /**
   * itoa(n, buf + at, 10): the text of n written from position `at`,
   * followed by a NUL; nothing else in the buffer changes.
   */
  method WriteItoa(buf: array<char>, at: nat, n: int)
    requires at + |Itoa(n)| < buf.Length
    modifies buf
    ensures buf[..] == old(buf[..at]) + Itoa(n) + ['\0'] + old(buf[at + |Itoa(n)| + 1..])
  {
    var s := Itoa(n);
    var k := 0;
    while k < |s|
      invariant 0 <= k <= |s|
      invariant forall j :: 0 <= j < buf.Length ==> buf[j] == if at <= j < at + k then s[j - at] else old(buf[j])
    {
      buf[at + k] := s[k];
      k := k + 1;
    }
    buf[at + k] := '\0';
    assert buf[..] == old(buf[..at]) + s + ['\0'] + old(buf[at + |s| + 1..]);
  }
}
