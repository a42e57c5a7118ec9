/**
 * The Dallas/Maxim 1-Wire CRC-8 (polynomial x^8 + x^5 + x^4 + 1, bits taken
 * least significant first, so the register shifts right and is XORed with
 * the reflected polynomial 0x8C), which ds1820_read_scratchpad accumulates
 * with avr-libc's _crc_ibutton_update starting from 0.
 */
module Crc8 {

  /** One bit step of the register. */
  function ShiftStep(crc: bv8): bv8
  {
    if crc & 1 != 0 then (crc >> 1) ^ 0x8C else crc >> 1
  }

  /** k bit steps. */
  function Shift(crc: bv8, k: nat): bv8
    decreases k
  {
    if k == 0 then crc else Shift(ShiftStep(crc), k - 1)
  }

  /** Bits per data byte: the number of steps one update makes. */
  const WIDTH: nat := 8

  /** _crc_ibutton_update(crc, data): XOR the byte in, then eight bit steps. */
  function Update(crc: bv8, data: bv8): bv8
  {
    Shift(crc ^ data, WIDTH)
  }

  /** The CRC of a byte sequence, register starting at 0, bytes in order. */
  function Crc(s: seq<bv8>): bv8
  {
    if s == [] then 0 else Update(Crc(s[..|s| - 1]), s[|s| - 1])
  }

  /** A bit step never maps two registers to one: it loses no information. */
  lemma ShiftStepInjective(x: bv8, y: bv8)
    ensures ShiftStep(x) == ShiftStep(y) ==> x == y
  {
  }

  lemma {:induction false} ShiftInjective(x: bv8, y: bv8, k: nat)
    ensures Shift(x, k) == Shift(y, k) ==> x == y
    decreases k
  {
    if k > 0 {
      ShiftInjective(ShiftStep(x), ShiftStep(y), k - 1);
      ShiftStepInjective(x, y);
    }
  }

  lemma {:induction false} ShiftZero(k: nat)
    ensures Shift(0, k) == 0
  {
    if k > 0 {
      assert ShiftStep(0) == 0;
      ShiftZero(k - 1);
    }
  }

  /** Updating with a byte gives 0 exactly when the byte equals the register. */
  lemma UpdateZero(crc: bv8, data: bv8)
    ensures Update(crc, data) == 0 <==> data == crc
  {
    ShiftZero(WIDTH);
    ShiftInjective(crc ^ data, 0, WIDTH);
    assert (crc ^ data == 0) == (data == crc);
  }

  /** Appending its own CRC makes a sequence check to 0. */
  lemma CrcAppendSelf(s: seq<bv8>)
    ensures Crc(s + [Crc(s)]) == 0
  {
    var t := s + [Crc(s)];
    assert t[..|t| - 1] == s;
    UpdateZero(Crc(s), Crc(s));
  }

  /**
   * A sequence whose last byte is the CRC of the bytes before it checks to
   * 0, and no other does: the check ds1820_read_scratchpad makes accepts
   * exactly the scratchpads whose ninth byte is the CRC of the first eight.
   */
  lemma CrcCheck(s: seq<bv8>)
    requires |s| > 0
    ensures Crc(s) == 0 <==> s[|s| - 1] == Crc(s[..|s| - 1])
  {
    UpdateZero(Crc(s[..|s| - 1]), s[|s| - 1]);
  }

  /** Registers that differ stay different under the same byte. */
  lemma UpdateKeepsApart(a: bv8, b: bv8, data: bv8)
    ensures a != b ==> Update(a, data) != Update(b, data)
  {
    ShiftInjective(a ^ data, b ^ data, WIDTH);
    assert a ^ data == b ^ data ==> a == b;
  }

  /** Different bytes take the same register to different registers. */
  lemma UpdateSeparates(crc: bv8, x: bv8, y: bv8)
    ensures x != y ==> Update(crc, x) != Update(crc, y)
  {
    ShiftInjective(crc ^ x, crc ^ y, WIDTH);
    assert crc ^ x == crc ^ y ==> x == y;
  }

  /** The CRC of the last byte appended to a sequence. */
  lemma CrcSnoc(p: seq<bv8>, x: bv8)
    ensures Crc(p + [x]) == Update(Crc(p), x)
  {
    assert (p + [x])[..|p|] == p;
  }

  lemma SplitLast(p: seq<bv8>, r: seq<bv8>)
    requires r != []
    ensures p + r == (p + r[..|r| - 1]) + [r[|r| - 1]]
  {
  }

  /** Sequences with different CRCs keep different CRCs under any common suffix. */
  lemma {:induction false} CrcSuffixKeepsApart(p: seq<bv8>, q: seq<bv8>, r: seq<bv8>)
    requires Crc(p) != Crc(q)
    ensures Crc(p + r) != Crc(q + r)
    decreases |r|
  {
    if r != [] {
      var n := |r| - 1;
      var pn, qn, x := p + r[..n], q + r[..n], r[n];
      SplitLast(p, r);
      SplitLast(q, r);
      CrcSnoc(pn, x);
      CrcSnoc(qn, x);
      CrcSuffixKeepsApart(p, q, r[..n]);
      UpdateKeepsApart(Crc(pn), Crc(qn), x);
    } else {
      assert p + r == p && q + r == q;
    }
  }

  /**
   * Two messages that differ in exactly one byte (in any of its bits) have
   * different CRCs: no error confined to one byte goes undetected.
   */
  lemma CrcDetectsByteError(p: seq<bv8>, x: bv8, y: bv8, r: seq<bv8>)
    requires x != y
    ensures Crc(p + [x] + r) != Crc(p + [y] + r)
  {
    CrcSnoc(p, x);
    CrcSnoc(p, y);
    UpdateSeparates(Crc(p), x, y);
    CrcSuffixKeepsApart(p + [x], p + [y], r);
  }

  /** The register values while the id below is checked. */
  lemma ApplicationNoteUpdates()
    ensures Update(0x00, 0x02) == 0xBC
    ensures Update(0xBC, 0x1C) == 0xAF
    ensures Update(0xAF, 0xB8) == 0x1E
    ensures Update(0x1E, 0x01) == 0xDC
    ensures Update(0xDC, 0x00) == 0xF4
    ensures Update(0xF4, 0x00) == 0x15
    ensures Update(0x15, 0x00) == 0xA2
  {
    assert Shift(0x02, 8) == 0xBC;
    assert Shift(0xA0, 8) == 0xAF;
    assert Shift(0x17, 8) == 0x1E;
    assert Shift(0x1F, 8) == 0xDC;
    assert Shift(0xC7, 4) == 0xF4;
    assert Shift(0xDC, 8) == 0xF4;
    assert Shift(0xF4, 8) == 0x15;
    assert Shift(0x15, 8) == 0xA2;
  }

  /** The id of Maxim's application note 27: family 02, serial 1CB801000000, CRC A2. */
  lemma ApplicationNoteExample()
    ensures Crc([0x02, 0x1C, 0xB8, 0x01, 0x00, 0x00, 0x00]) == 0xA2
  {
    ApplicationNoteUpdates();
    var s: seq<bv8> := [0x02, 0x1C, 0xB8, 0x01, 0x00, 0x00, 0x00];
    CrcSnoc(s[..0], s[0]); assert s[..0] + [s[0]] == s[..1];
    CrcSnoc(s[..1], s[1]); assert s[..1] + [s[1]] == s[..2];
    CrcSnoc(s[..2], s[2]); assert s[..2] + [s[2]] == s[..3];
    CrcSnoc(s[..3], s[3]); assert s[..3] + [s[3]] == s[..4];
    CrcSnoc(s[..4], s[4]); assert s[..4] + [s[4]] == s[..5];
    CrcSnoc(s[..5], s[5]); assert s[..5] + [s[5]] == s[..6];
    CrcSnoc(s[..6], s[6]); assert s[..6] + [s[6]] == s[..7];
    assert s[..7] == s;
  }
}
