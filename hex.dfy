/**
 * Upper-case hexadecimal digits as w1_id2str and uart_putb produce them:
 * a nibble n becomes `n + '0'` below ten and `n + 'A' - 10` from ten on,
 * and a byte becomes its high nibble's digit followed by its low nibble's.
 */
module Hex {

  /** An upper-case hexadecimal digit. */
  predicate IsHexDigit(c: char)
  {
    '0' <= c <= '9' || 'A' <= c <= 'F'
  }

  /** The digit for a nibble. */
  function HexDigit(n: int): (c: char)
    requires 0 <= n < 16
    ensures IsHexDigit(c)
    ensures DigitValue(c) == n
  {
    if n < 10 then (n + '0' as int) as char else (n + 'A' as int - 10) as char
  }

  /** The nibble a digit stands for, or -1 for anything that is not an upper-case hex digit. */
  function DigitValue(c: char): (v: int)
    ensures -1 <= v < 16
    ensures v >= 0 <==> IsHexDigit(c)
  {
    if '0' <= c <= '9' then c as int - '0' as int
    else if 'A' <= c <= 'F' then c as int - 'A' as int + 10
    else -1
  }

  /** `(b & 0xF0) >> 4` */
  function HighNibble(b: bv8): (n: int)
    ensures 0 <= n < 16
  {
    ((b & 0xF0) >> 4) as int
  }

  /** `b & 0x0F` */
  function LowNibble(b: bv8): (n: int)
    ensures 0 <= n < 16
  {
    (b & 0x0F) as int
  }

  lemma NibblesCompose(b: bv8)
    ensures HighNibble(b) * 16 + LowNibble(b) == b as int
  {
  }

  /** The two digits of a byte, high nibble first. */
  function ByteHex(b: bv8): (s: seq<char>)
    ensures |s| == 2
  {
    [HexDigit(HighNibble(b)), HexDigit(LowNibble(b))]
  }

  /** The digit for a nibble as the byte uart_putb sends: `n + '0'` or `n + 'A' - 10`; the same code point as HexDigit. */
  function DigitByte(n: int): (b: bv8)
    requires 0 <= n < 16
    ensures b as int == HexDigit(n) as int
  {
    (if n < 10 then n + '0' as int else n + 'A' as int - 10) as bv8
  }

  /** The example of uart.h: 42 is sent as "2A". */
  lemma FortyTwo()
    ensures ByteHex(42) == "2A"
  {
  }

  /** The byte two digits stand for. */
  function ParseByte(hi: char, lo: char): bv8
    requires IsHexDigit(hi) && IsHexDigit(lo)
  {
    (DigitValue(hi) * 16 + DigitValue(lo)) as bv8
  }

  /** Reading the two digits back gives the byte. */
  lemma ByteHexRoundTrip(b: bv8)
    ensures ParseByte(ByteHex(b)[0], ByteHex(b)[1]) == b
  {
    NibblesCompose(b);
  }

  /** The digits of a byte sequence, two per byte, in order: digit k belongs to byte k / 2. */
  function BytesHex(bs: seq<bv8>): (s: seq<char>)
    ensures |s| == 2 * |bs|
    ensures forall i :: 0 <= i < |s| ==> IsHexDigit(s[i])
  {
    seq(2 * |bs|, k requires 0 <= k < 2 * |bs| => ByteHex(bs[k / 2])[k % 2])
  }

  /** Digits 2i and 2i+1 are those of byte i. */
  lemma BytesHexAt(bs: seq<bv8>, i: int)
    requires 0 <= i < |bs|
    ensures BytesHex(bs)[2 * i] == ByteHex(bs[i])[0] && BytesHex(bs)[2 * i + 1] == ByteHex(bs[i])[1]
  {
    assert (2 * i) / 2 == i && (2 * i + 1) / 2 == i && (2 * i) % 2 == 0 && (2 * i + 1) % 2 == 1;
  }

  /** The bytes a string of digit pairs stands for. */
  function ParseBytes(s: seq<char>): (bs: seq<bv8>)
    requires |s| % 2 == 0 && forall i :: 0 <= i < |s| ==> IsHexDigit(s[i])
    ensures |bs| == |s| / 2
  {
    if s == [] then [] else [ParseByte(s[0], s[1])] + ParseBytes(s[2..])
  }

  /** Dropping the first byte drops its two digits. */
  lemma BytesHexTail(bs: seq<bv8>)
    requires bs != []
    ensures BytesHex(bs)[2..] == BytesHex(bs[1..])
  {
    var s, t := BytesHex(bs), BytesHex(bs[1..]);
    forall k | 0 <= k < |t|
      ensures s[2..][k] == t[k]
    {
      assert (k + 2) / 2 == k / 2 + 1 && (k + 2) % 2 == k % 2;
      assert bs[1..][k / 2] == bs[k / 2 + 1];
    }
  }

  /** Reading the digits of a byte sequence back gives the bytes. */
  lemma {:induction false} BytesHexRoundTrip(bs: seq<bv8>)
    ensures ParseBytes(BytesHex(bs)) == bs
  {
    if bs != [] {
      BytesHexRoundTrip(bs[1..]);
      BytesHexTail(bs);
      BytesHexAt(bs, 0);
      ByteHexRoundTrip(bs[0]);
    }
  }
}
