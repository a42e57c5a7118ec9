/**
 * The 1-Wire bus as the master sees it, with the electrical timing of
 * w1_reset, w1_write_bit and w1_read_bit replaced by an oracle.
 *
 * The oracle holds a fixed set of devices, each known by its 64-bit ROM id.
 * After a reset every device takes part in the next ROM search; when the
 * first byte the master writes after a reset is the SEARCH ROM command, the
 * devices walk through the 64 id bits with the master: for each bit they
 * drive their bit, then its complement, and then drop out unless the bit the
 * master writes equals theirs. The line is open drain, so a read slot sees
 * the wired-AND of what the participants drive (a released line reads 1).
 * Outside a search, read slots return the levels of `incoming` in order
 * (whatever the addressed device sends) and 1 once those run out. Every slot
 * is recorded in `trace`.
 */
module W1Bus {
  import opened Bits

  /** ROM command bytes (w1/w1-master.c:8-12). */
  const SKIP_ROM: bv8 := 0xCC
  const READ_ROM: bv8 := 0x33
  const MATCH_ROM: bv8 := 0x55
  const SEARCH_ROM: bv8 := 0xF0

  /** Answers of w1_reset (w1/w1-master.h:19-20). */
  const W1_INIT_SLAVES_PRESENT: bv8 := 0
  const W1_INIT_NO_PRESENCE: bv8 := 1

  /** The bus is on pin PC0 (w1/w1-master.h:10). */
  const W1PIN: int := 0

  /** A 1-Wire ROM id (w1id_t): byte 0 is the family code, byte 7 the CRC. */
  type Id = s: seq<bv8> | |s| == 8 witness [0, 0, 0, 0, 0, 0, 0, 0]

  /** Bit `pos` of an id as the search numbers it: bit pos%8 of byte pos/8. */
  predicate IdBit(id: Id, pos: int)
    requires 0 <= pos < 64
  {
    BitSet(id[pos / 8], pos % 8)
  }

  /** `x | (1 << k)` when v, `x & ~(1 << k)` otherwise. */
  function WithBit(x: bv8, k: int, v: bool): bv8
    requires 0 <= k < 8
  {
    if v then x | Mask(k) else x & !Mask(k)
  }

  /** Setting or clearing one bit of a byte leaves the others as they were. */
  lemma WithBitAt(x: bv8, j: int, k: int, v: bool)
    requires 0 <= j < 8 && 0 <= k < 8
    ensures BitSet(WithBit(x, j, v), k) == if j == k then v else BitSet(x, k)
  {
    if v {
      SetOneBit(x, j, k);
    } else {
      ClearOneBit(x, j, k);
    }
  }

  /** `id[pos/8] |= 1 << (pos%8)` or `id[pos/8] &= ~(1 << (pos%8))`. */
  function SetBit(id: Id, pos: int, v: bool): (r: Id)
    requires 0 <= pos < 64
    ensures forall q :: 0 <= q < 64 ==> IdBit(r, q) == if q == pos then v else IdBit(id, q)
  {
    var r := id[pos / 8 := WithBit(id[pos / 8], pos % 8, v)];
    forall q | 0 <= q < 64
      ensures IdBit(r, q) == if q == pos then v else IdBit(id, q)
    {
      SetBitAt(id, pos, v, q);
    }
    r
  }

  lemma SetBitAt(id: Id, pos: int, v: bool, q: int)
    requires 0 <= pos < 64 && 0 <= q < 64
    ensures var r: Id := id[pos / 8 := WithBit(id[pos / 8], pos % 8, v)];
      IdBit(r, q) == if q == pos then v else IdBit(id, q)
  {
    var i, k := pos / 8, pos % 8;
    var r: Id := id[i := WithBit(id[i], k, v)];
    var qi, qk := q / 8, q % 8;
    assert IdBit(r, q) == BitSet(r[qi], qk);
    assert IdBit(id, q) == BitSet(id[qi], qk);
    if qi == i {
      assert q == pos <==> k == qk by {
        SamePosition(pos, q);
      }
      WithBitAt(id[i], k, qk, v);
    } else {
      assert r[qi] == id[qi];
    }
  }

  lemma SamePosition(p: int, q: int)
    requires 0 <= p < 64 && 0 <= q < 64 && p / 8 == q / 8
    ensures p == q <==> p % 8 == q % 8
  {
    assert p == 8 * (p / 8) + p % 8;
    assert q == 8 * (q / 8) + q % 8;
  }

  /** Bit 8*i+k of an id is bit k of byte i: the id goes on the line byte by byte, LSB first. */
  lemma IdBitsAreLineOrder(id: Id, pos: int)
    requires 0 <= pos < 64
    ensures IdBit(id, pos) == BytesBits(id)[pos]
  {
    BytesBitsAt(id, pos / 8, pos % 8);
  }

  /** x and y agree on their first n id bits. */
  ghost predicate Agree(x: Id, y: Id, n: int)
  {
    forall q :: 0 <= q < n && q < 64 ==> IdBit(x, q) == IdBit(y, q)
  }

  /** Ids that agree on all 64 bits are equal. */
  lemma IdExt(x: Id, y: Id)
    requires Agree(x, y, 64)
    ensures x == y
  {
    forall i | 0 <= i < 8
      ensures x[i] == y[i]
    {
      forall k | 0 <= k < 8
        ensures BitSet(x[i], k) == BitSet(y[i], k)
      {
        assert (8 * i + k) / 8 == i && (8 * i + k) % 8 == k;
        assert IdBit(x, 8 * i + k) == IdBit(y, 8 * i + k);
      }
      ByteExt(x[i], y[i]);
    }
  }

  /** Level of a read slot in which every device in `a` drives bit `pos` (wired-AND). */
  predicate AllOne(a: set<Id>, pos: int)
    requires 0 <= pos < 64
  {
    forall d | d in a :: IdBit(d, pos)
  }

  /** Level of a read slot in which every device in `a` drives the complement of bit `pos`. */
  predicate AllZero(a: set<Id>, pos: int)
    requires 0 <= pos < 64
  {
    forall d | d in a :: !IdBit(d, pos)
  }

  /** The devices of `a` that stay in the search after the master writes `v` for bit `pos`. */
  function Filter(a: set<Id>, pos: int, v: bool): (r: set<Id>)
    requires 0 <= pos < 64
    ensures r <= a
    ensures forall d :: d in r <==> d in a && IdBit(d, pos) == v
  {
    set d | d in a && IdBit(d, pos) == v
  }

  /** Where the devices are within one search bit: they drive the bit, then its complement, then await the master's choice. */
  datatype Phase = TrueBit | ComplementBit | Direction

  /** One time slot on the line. */
  datatype Slot = ResetPulse | Wrote(bit: bool) | Sampled(level: bool)

  datatype Line = Line(
    active: set<Id>,     // devices still taking part in the search
    heard: seq<bool>,    // bits written since the last reset, up to the first eight (the ROM command)
    searching: bool,     // the devices are walking through a ROM search
    pos: nat,            // the id bit the search is at
    phase: Phase,
    incoming: seq<bool>, // levels the devices drive in ordinary read slots
    trace: seq<Slot>)    // every slot so far

  /** The line after a reset pulse: every device answers and takes part again. */
  function AfterReset(l: Line, devices: set<Id>): Line
  {
    l.(active := devices, heard := [], searching := false, pos := 0, phase := TrueBit,
       trace := l.trace + [ResetPulse])
  }

  /** The line after the master writes `b`. */
  function AfterWrite(l: Line, b: bool): Line
  {
    var t := l.trace + [Wrote(b)];
    if l.searching then
      if l.phase == Direction && l.pos < 64 then
        l.(active := Filter(l.active, l.pos, b), pos := l.pos + 1, phase := TrueBit,
           searching := l.pos + 1 < 64, trace := t)
      else
        l.(trace := t)
    else if |l.heard| < 8 then
      var h := l.heard + [b];
      l.(heard := h, searching := h == ByteBits(SEARCH_ROM), pos := 0, phase := TrueBit, trace := t)
    else
      l.(trace := t)
  }

  /** The level the master samples in its next read slot. */
  predicate Level(l: Line)
  {
    if l.searching && l.pos < 64 && l.phase == TrueBit then AllOne(l.active, l.pos)
    else if l.searching && l.pos < 64 && l.phase == ComplementBit then AllZero(l.active, l.pos)
    else if l.searching then true
    else if l.incoming != [] then l.incoming[0]
    else true
  }

  /** The line after a read slot. */
  function AfterRead(l: Line): Line
  {
    var t := l.trace + [Sampled(Level(l))];
    if l.searching && l.pos < 64 && l.phase == TrueBit then l.(phase := ComplementBit, trace := t)
    else if l.searching && l.pos < 64 && l.phase == ComplementBit then l.(phase := Direction, trace := t)
    else if l.searching then l.(trace := t)
    else if l.incoming != [] then l.(incoming := l.incoming[1..], trace := t)
    else l.(trace := t)
  }

  /** The line after writing `bits` in order. */
  function WriteBits(l: Line, bits: seq<bool>): Line
  {
    if bits == [] then l else AfterWrite(WriteBits(l, bits[..|bits| - 1]), bits[|bits| - 1])
  }

  /** The levels of the next n read slots, and the line after them. */
  function ReadLevels(l: Line, n: nat): (r: (seq<bool>, Line))
    ensures |r.0| == n
  {
    if n == 0 then ([], l)
    else
      var (lv, l1) := ReadLevels(l, n - 1);
      (lv + [Level(l1)], AfterRead(l1))
  }

  /** Trace entries for written bits and sampled levels. */
  function Writes(bits: seq<bool>): (r: seq<Slot>)
    ensures |r| == |bits| && forall i :: 0 <= i < |bits| ==> r[i] == Wrote(bits[i])
  {
    if bits == [] then [] else Writes(bits[..|bits| - 1]) + [Wrote(bits[|bits| - 1])]
  }

  function Samples(levels: seq<bool>): (r: seq<Slot>)
    ensures |r| == |levels| && forall i :: 0 <= i < |levels| ==> r[i] == Sampled(levels[i])
  {
    if levels == [] then [] else Samples(levels[..|levels| - 1]) + [Sampled(levels[|levels| - 1])]
  }

  /** The first n levels of a stream, padded with the idle level 1. */
  function Take(s: seq<bool>, n: nat): (r: seq<bool>)
    ensures |r| == n
    ensures forall i :: 0 <= i < n ==> r[i] == (i >= |s| || s[i])
  {
    if n == 0 then [] else Take(s, n - 1) + [n - 1 >= |s| || s[n - 1]]
  }

  function Drop(s: seq<bool>, n: nat): seq<bool>
  {
    if |s| >= n then s[n..] else []
  }

  /** Writing never changes what the devices will send, and only appends to the trace. */
  lemma {:induction false} WriteBitsTrace(l: Line, bits: seq<bool>)
    ensures WriteBits(l, bits).trace == l.trace + Writes(bits)
    ensures WriteBits(l, bits).incoming == l.incoming
  {
    if bits != [] {
      WriteBitsTrace(l, bits[..|bits| - 1]);
    }
  }

  lemma WriteBitsSnoc(l: Line, bits: seq<bool>, b: bool)
    ensures WriteBits(l, bits + [b]) == AfterWrite(WriteBits(l, bits), b)
  {
    assert (bits + [b])[..|bits|] == bits;
  }

  lemma {:induction false} WriteBitsAppend(l: Line, a: seq<bool>, b: seq<bool>)
    ensures WriteBits(l, a + b) == WriteBits(WriteBits(l, a), b)
    decreases |b|
  {
    if b == [] {
      assert a + b == a;
    } else {
      var n := |b| - 1;
      assert (a + b)[..|a + b| - 1] == a + b[..n];
      WriteBitsAppend(l, a, b[..n]);
    }
  }

  lemma {:induction false} ReadLevelsAppend(l: Line, m: nat, n: nat)
    ensures ReadLevels(l, m + n).0 == ReadLevels(l, m).0 + ReadLevels(ReadLevels(l, m).1, n).0
    ensures ReadLevels(l, m + n).1 == ReadLevels(ReadLevels(l, m).1, n).1
    decreases n
  {
    if n > 0 {
      ReadLevelsAppend(l, m, n - 1);
    }
  }

  /**
   * Right after a reset, the first byte written is the ROM command: the
   * devices start a search exactly when it is SEARCH ROM, and nothing else
   * changes.
   */
  lemma {:induction false} CommandAfterReset(l: Line, bits: seq<bool>)
    requires !l.searching && l.heard == [] && l.pos == 0 && l.phase == TrueBit
    requires |bits| <= 8
    ensures WriteBits(l, bits) ==
      l.(heard := bits, searching := bits == ByteBits(SEARCH_ROM), trace := l.trace + Writes(bits))
  {
    if bits != [] {
      var n := |bits| - 1;
      CommandAfterReset(l, bits[..n]);
      assert bits[..n] + [bits[n]] == bits;
    }
  }

  /** SEARCH ROM right after a reset starts a search at bit 0 with every device taking part. */
  lemma SearchCommand(l: Line, devices: set<Id>)
    ensures var l2 := WriteBits(AfterReset(l, devices), ByteBits(SEARCH_ROM));
      l2.active == devices && l2.searching && l2.pos == 0 && l2.phase == TrueBit &&
      l2.incoming == l.incoming
  {
    CommandAfterReset(AfterReset(l, devices), ByteBits(SEARCH_ROM));
  }

  /** Once the command byte is heard and no search runs, writes only go into the trace. */
  lemma {:induction false} QuietWrites(l: Line, bits: seq<bool>)
    requires !l.searching && |l.heard| == 8
    ensures WriteBits(l, bits) == l.(trace := l.trace + Writes(bits))
  {
    if bits != [] {
      var n := |bits| - 1;
      QuietWrites(l, bits[..n]);
      assert Writes(bits[..n]) + [Wrote(bits[n])] == Writes(bits);
    }
  }

  /** Outside a search, read slots return the incoming levels in order, then the idle level. */
  lemma {:induction false} QuietReads(l: Line, n: nat)
    requires !l.searching
    ensures ReadLevels(l, n).0 == Take(l.incoming, n)
    ensures ReadLevels(l, n).1 ==
      l.(incoming := Drop(l.incoming, n), trace := l.trace + Samples(Take(l.incoming, n)))
  {
    if n > 0 {
      QuietReads(l, n - 1);
      QuietReadsStep(l, n);
    }
  }

  /** The state after n quiet read slots. */
  ghost predicate QuietAfter(l: Line, n: nat, r: (seq<bool>, Line))
  {
    r.0 == Take(l.incoming, n) &&
    r.1 == l.(incoming := Drop(l.incoming, n), trace := l.trace + Samples(Take(l.incoming, n)))
  }

  lemma QuietReadsStep(l: Line, n: nat)
    requires !l.searching && n > 0
    requires QuietAfter(l, n - 1, ReadLevels(l, n - 1))
    ensures QuietAfter(l, n, ReadLevels(l, n))
  {
    var l1 := ReadLevels(l, n - 1).1;
    var x := n - 1 >= |l.incoming| || l.incoming[n - 1];
    var t := Take(l.incoming, n);
    assert t == Take(l.incoming, n - 1) + [x];
    ReadLevelsStep(l, n);
    assert Level(l1) == x by {
      QuietRead(l1);
    }
    assert AfterRead(l1) == l.(incoming := Drop(l.incoming, n), trace := l.trace + Samples(t)) by {
      QuietRead(l1);
      assert t[..n - 1] == Take(l.incoming, n - 1);
      assert Samples(t) == Samples(Take(l.incoming, n - 1)) + [Sampled(x)];
      DropStep(l.incoming, n);
    }
  }

  lemma DropStep(s: seq<bool>, n: nat)
    requires n > 0
    ensures Drop(s, n) == if Drop(s, n - 1) != [] then Drop(s, n - 1)[1..] else []
  {
    if |s| >= n {
      assert s[n - 1..][1..] == s[n..];
    }
  }

  lemma ReadLevelsStep(l: Line, n: nat)
    requires n > 0
    ensures ReadLevels(l, n).0 == ReadLevels(l, n - 1).0 + [Level(ReadLevels(l, n - 1).1)]
    ensures ReadLevels(l, n).1 == AfterRead(ReadLevels(l, n - 1).1)
  {
  }

  /** One read slot outside a search. */
  lemma QuietRead(l: Line)
    requires !l.searching
    ensures Level(l) == (l.incoming == [] || l.incoming[0])
    ensures AfterRead(l) ==
      l.(incoming := if l.incoming != [] then l.incoming[1..] else [], trace := l.trace + [Sampled(Level(l))])
  {
  }

  /**
   * One search position seen from the line: the first read slot carries the
   * AND of the active devices' bits, the second the AND of their complements,
   * and the written direction drops the devices that disagree with it.
   */
  lemma SearchSlots(l: Line, v: bool)
    requires l.searching && l.pos < 64 && l.phase == TrueBit
    ensures Level(l) == AllOne(l.active, l.pos)
    ensures Level(AfterRead(l)) == AllZero(l.active, l.pos)
    ensures var l3 := AfterWrite(AfterRead(AfterRead(l)), v);
      l3.active == Filter(l.active, l.pos, v) && l3.pos == l.pos + 1 && l3.phase == TrueBit &&
      l3.searching == (l.pos + 1 < 64) && l3.incoming == l.incoming
  {
  }

  /** The bus: its devices are fixed, the line state changes with every slot. */
  class Bus {
    const devices: set<Id>
    var line: Line

    constructor (devices: set<Id>, incoming: seq<bool>)
      ensures this.devices == devices
      ensures line == Line({}, [], false, 0, TrueBit, incoming, [])
    {
      this.devices := devices;
      line := Line({}, [], false, 0, TrueBit, incoming, []);
    }

    /** w1_reset: a reset pulse; a presence pulse comes back iff a device is on the bus. */
    method Reset() returns (ret: bv8)
      modifies this
      ensures ret == if devices != {} then W1_INIT_SLAVES_PRESENT else W1_INIT_NO_PRESENCE
      ensures line == AfterReset(old(line), devices)
      ensures line.active == devices && !line.searching && line.heard == []
    {
      var slaveDetected := devices != {};
      line := AfterReset(line, devices);
      ret := if slaveDetected then W1_INIT_SLAVES_PRESENT else W1_INIT_NO_PRESENCE;
    }

    /** w1_write_bit: one write slot; any non-zero argument writes a 1. */
    method WriteBit(bit: bv8)
      modifies this
      ensures line == AfterWrite(old(line), bit != 0)
    {
      line := AfterWrite(line, bit != 0);
    }

    /** w1_read_bit: one read slot; the result is `PINC & (1 << W1PIN)`. */
    method ReadBit() returns (result: bv8)
      modifies this
      ensures result == if Level(old(line)) then Mask(W1PIN) else 0
      ensures line == AfterRead(old(line))
    {
      result := if Level(line) then Mask(W1PIN) else 0;
      line := AfterRead(line);
    }
  }
}
