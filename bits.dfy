/**
 * Bytes and their bits, as the drivers see them: bit k of a byte is tested
 * with `byte & (1 << k)`, and every serial line in these drivers carries the
 * least significant bit first.
 */
module Bits {

  /** The smaller of two counts. */
  function Min(a: int, b: int): int
  {
    if a <= b then a else b
  }

  /** `1 << k` for a bit position k of a byte. */
  function Mask(k: int): (m: bv8)
    requires 0 <= k < 8
  {
    if k == 0 then 0x01 else if k == 1 then 0x02 else if k == 2 then 0x04 else if k == 3 then 0x08
    else if k == 4 then 0x10 else if k == 5 then 0x20 else if k == 6 then 0x40 else 0x80
  }

  /** The table above is the shift the C code writes. */
  lemma MaskIsShift(k: int)
    requires 0 <= k < 8
    ensures Mask(k) == (1 as bv8) << k
  {
    if k == 0 { } else if k == 1 { } else if k == 2 { } else if k == 3 { }
    else if k == 4 { } else if k == 5 { } else if k == 6 { } else { }
  }

  /** A bit value of 0 or 1 shifted left by k is 0 or the mask of bit k. */
  lemma ShiftedBit(v: bv8, k: int)
    requires (v == 0 || v == 1) && 0 <= k < 8
    ensures v << k == if v == 0 then 0 else Mask(k)
  {
    if k == 0 { } else if k == 1 { } else if k == 2 { } else if k == 3 { }
    else if k == 4 { } else if k == 5 { } else if k == 6 { } else { }
  }

  /** `b & (1 << k)` is non-zero. */
  predicate BitSet(b: bv8, k: int)
    requires 0 <= k < 8
  {
    b & Mask(k) != 0
  }

  /** Two bytes with the same eight bits are the same byte. */
  lemma ByteExt(a: bv8, b: bv8)
    requires forall k :: 0 <= k < 8 ==> BitSet(a, k) == BitSet(b, k)
    ensures a == b
  {
    assert BitSet(a, 0) == BitSet(b, 0);
    assert BitSet(a, 1) == BitSet(b, 1);
    assert BitSet(a, 2) == BitSet(b, 2);
    assert BitSet(a, 3) == BitSet(b, 3);
    assert BitSet(a, 4) == BitSet(b, 4);
    assert BitSet(a, 5) == BitSet(b, 5);
    assert BitSet(a, 6) == BitSet(b, 6);
    assert BitSet(a, 7) == BitSet(b, 7);
  }

  /** Setting bit j (`|= 1 << j`) touches no other bit. */
  lemma SetOneBit(x: bv8, j: int, k: int)
    requires 0 <= j < 8 && 0 <= k < 8
    ensures BitSet(x | Mask(j), k) == (BitSet(x, k) || j == k)
  {
  }

  /** Clearing bit j (`&= ~(1 << j)`) touches no other bit. */
  lemma ClearOneBit(x: bv8, j: int, k: int)
    requires 0 <= j < 8 && 0 <= k < 8
    ensures BitSet(x & !Mask(j), k) == (BitSet(x, k) && j != k)
  {
  }

  /** The eight bits of a byte in line order, least significant first. */
  function ByteBits(b: bv8): (bits: seq<bool>)
    ensures |bits| == 8
  {
    seq(8, k requires 0 <= k < 8 => BitSet(b, k))
  }

  /** A byte assembled from line-order bits by ORing bit k in at position k. */
  function FromBits(bits: seq<bool>): bv8
    requires |bits| <= 8
  {
    if bits == [] then 0
    else FromBits(bits[..|bits| - 1]) | (if bits[|bits| - 1] then Mask(|bits| - 1) else 0)
  }

  /** Bit k of an assembled byte is the k-th bit given, and bits not given are clear. */
  lemma {:induction false} FromBitsBit(bits: seq<bool>, k: int)
    requires |bits| <= 8 && 0 <= k < 8
    ensures BitSet(FromBits(bits), k) == (k < |bits| && bits[k])
  {
    if bits != [] {
      var n := |bits| - 1;
      var x := FromBits(bits[..n]);
      FromBitsBit(bits[..n], k);
      assert (k < |bits| && bits[k]) == ((k < n && bits[..n][k]) || (k == n && bits[n]));
      if bits[n] {
        assert FromBits(bits) == x | Mask(n);
        SetOneBit(x, n, k);
      } else {
        assert FromBits(bits) == x;
      }
    }
  }

  /** Framing a byte into bits and assembling them again gives the byte back. */
  lemma ByteBitsRoundTrip(b: bv8)
    ensures FromBits(ByteBits(b)) == b
  {
    forall k | 0 <= k < 8
      ensures BitSet(FromBits(ByteBits(b)), k) == BitSet(b, k)
    {
      FromBitsBit(ByteBits(b), k);
    }
    ByteExt(FromBits(ByteBits(b)), b);
  }

  /** Assembling eight bits and framing the byte again gives the bits back. */
  lemma BitsRoundTrip(bits: seq<bool>)
    requires |bits| == 8
    ensures ByteBits(FromBits(bits)) == bits
  {
    forall k | 0 <= k < 8
      ensures ByteBits(FromBits(bits))[k] == bits[k]
    {
      FromBitsBit(bits, k);
    }
  }

  /** A sequence of bytes as line-order bits: byte 0 first, each least significant bit first. */
  function BytesBits(bs: seq<bv8>): (bits: seq<bool>)
    ensures |bits| == 8 * |bs|
  {
    if bs == [] then [] else BytesBits(bs[..|bs| - 1]) + ByteBits(bs[|bs| - 1])
  }

  /** Bit 8*i+k of the line-order bits is bit k of byte i. */
  lemma {:induction false} BytesBitsAt(bs: seq<bv8>, i: int, k: int)
    requires 0 <= i < |bs| && 0 <= k < 8
    ensures BytesBits(bs)[8 * i + k] == BitSet(bs[i], k)
  {
    var n := |bs| - 1;
    if i < n {
      BytesBitsAt(bs[..n], i, k);
    }
  }

  lemma BytesBitsAppend(a: seq<bv8>, b: seq<bv8>)
    ensures BytesBits(a + b) == BytesBits(a) + BytesBits(b)
    decreases |b|
  {
    if b == [] {
      assert a + b == a;
    } else {
      var n := |b| - 1;
      assert a + b == (a + b[..n]) + [b[n]];
      assert (a + b)[..|a + b| - 1] == a + b[..n];
      BytesBitsAppend(a, b[..n]);
      calc {
        BytesBits(a + b);
        BytesBits(a + b[..n]) + ByteBits(b[n]);
        BytesBits(a) + BytesBits(b[..n]) + ByteBits(b[n]);
        { assert b[..|b| - 1] == b[..n]; }
        BytesBits(a) + BytesBits(b);
      }
    }
  }

  /** Byte sequences are determined by their line-order bits. */
  lemma BytesBitsInjective(a: seq<bv8>, b: seq<bv8>)
    requires |a| == |b| && BytesBits(a) == BytesBits(b)
    ensures a == b
  {
    forall i | 0 <= i < |a|
      ensures a[i] == b[i]
    {
      forall k | 0 <= k < 8
        ensures BitSet(a[i], k) == BitSet(b[i], k)
      {
        BytesBitsAt(a, i, k);
        BytesBitsAt(b, i, k);
      }
      ByteExt(a[i], b[i]);
    }
  }
}
