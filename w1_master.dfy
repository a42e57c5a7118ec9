/**
 * The 1-Wire master (w1/w1-master.c): bytes are written and read one bit
 * slot at a time, least significant bit first; the ROM commands address the
 * devices; the ROM search walks the id tree one path per call.
 */
module W1 {
  import opened Bits
  import opened Hex
  import opened W1Bus
  import opened W1Search

  /** w1_write_byte: eight write slots, least significant bit first. */
  method WriteByte(bus: Bus, b: bv8)
    modifies bus
    ensures bus.line == WriteBits(old(bus.line), ByteBits(b))
  {
    var i := 0;
    while i < 8
      invariant 0 <= i <= 8
      invariant bus.line == WriteBits(old(bus.line), ByteBits(b)[..i])
    {
      bus.WriteBit(b & Mask(i));
      WriteByteStep(old(bus.line), b, i);
      i := i + 1;
    }
    assert ByteBits(b)[..8] == ByteBits(b);
  }

  lemma WriteByteStep(l: Line, b: bv8, i: int)
    requires 0 <= i < 8
    ensures WriteBits(l, ByteBits(b)[..i + 1]) == AfterWrite(WriteBits(l, ByteBits(b)[..i]), b & Mask(i) != 0)
  {
    var bits := ByteBits(b);
    assert bits[..i + 1] == bits[..i] + [bits[i]];
    assert bits[i] == (b & Mask(i) != 0);
    WriteBitsSnoc(l, bits[..i], bits[i]);
  }

  /**
   * w1_read_byte: eight read slots; the level of slot i becomes bit i.
   * The pin sits at bit W1PIN = 0, so the value read is 0 or 1 and shifting
   * it left by i sets bit i.
   */
  method ReadByte(bus: Bus) returns (b: bv8)
    modifies bus
    ensures b == FromBits(ReadLevels(old(bus.line), 8).0)
    ensures bus.line == ReadLevels(old(bus.line), 8).1
  {
    b := 0;
    var i := 0;
    while i < 8
      invariant 0 <= i <= 8
      invariant b == FromBits(ReadLevels(old(bus.line), i).0)
      invariant bus.line == ReadLevels(old(bus.line), i).1
    {
      var v := bus.ReadBit();
      ReadByteStep(old(bus.line), i);
      b := OrShifted(b, v, i);
      i := i + 1;
    }
  }

  /** `b | (v << i)` for the 0 or 1 that w1_read_bit returns: bit i set exactly when v is 1. */
  method OrShifted(b: bv8, v: bv8, i: int) returns (r: bv8)
    requires (v == 0 || v == 1) && 0 <= i < 8
    ensures r == b | (if v == 0 then 0 else Mask(i))
  {
    ShiftedBit(v, i);
    r := b | (v << i);
  }

  lemma ReadByteStep(l: Line, i: nat)
    requires i < 8
    ensures var (lv, l1) := ReadLevels(l, i);
      ReadLevels(l, i + 1).1 == AfterRead(l1) &&
      FromBits(ReadLevels(l, i + 1).0) == FromBits(lv) | (if Level(l1) then Mask(i) else 0)
  {
    var (lv, l1) := ReadLevels(l, i);
    assert ReadLevels(l, i + 1).0 == lv + [Level(l1)];
    assert (lv + [Level(l1)])[..i] == lv;
  }

  /** w1_skip_rom: address every device at once. */
  method SkipRom(bus: Bus)
    modifies bus
    ensures bus.line == WriteBits(old(bus.line), ByteBits(SKIP_ROM))
  {
    WriteByte(bus, SKIP_ROM);
  }

  /** Reading k bytes with w1_read_byte: their values, and the line after them. */
  function ReadBytes(l: Line, k: nat): (r: (seq<bv8>, Line))
    ensures |r.0| == k
  {
    if k == 0 then ([], l)
    else
      var (bs, l1) := ReadBytes(l, k - 1);
      (bs + [FromBits(ReadLevels(l1, 8).0)], ReadLevels(l1, 8).1)
  }

  lemma {:induction false} ReadBytesStep(l: Line, k: nat, k': nat)
    requires k' == k + 1
    ensures var (bs, l1) := ReadBytes(l, k);
      ReadBytes(l, k') == (bs + [FromBits(ReadLevels(l1, 8).0)], ReadLevels(l1, 8).1)
  {
  }

  /** Reading k bytes reads 8k levels, and the bytes are what those levels carry. */
  lemma {:induction false} ReadBytesLevels(l: Line, k: nat)
    ensures ReadBytes(l, k).1 == ReadLevels(l, 8 * k).1
    ensures ReadBytes(l, k).0 == LevelsBytes(ReadLevels(l, 8 * k).0)
  {
    if k > 0 {
      var j := k - 1;
      var n, t := 8 * j, 8 * k;
      ReadBytesLevels(l, j);
      ReadBytesStep(l, j, k);
      var (lv, l1) := ReadLevels(l, n);
      var (lv2, l2) := ReadLevels(l1, 8);
      ReadLevelsSplit(l, n, 8, t);
      LevelsBytesSnoc(lv, lv2);
    }
  }

  /** Reading t = m + n levels is reading m and then n more. */
  lemma ReadLevelsSplit(l: Line, m: nat, n: nat, t: nat)
    requires t == m + n
    ensures var (lv, l1) := ReadLevels(l, m);
      ReadLevels(l, t) == (lv + ReadLevels(l1, n).0, ReadLevels(l1, n).1)
  {
    ReadLevelsAppend(l, m, n);
  }

  /** The bytes a sequence of levels carries, least significant bit first. */
  function LevelsBytes(levels: seq<bool>): (bs: seq<bv8>)
    requires |levels| % 8 == 0
    ensures |bs| == |levels| / 8
  {
    if levels == [] then [] else LevelsBytes(levels[..|levels| - 8]) + [FromBits(levels[|levels| - 8..])]
  }

  /** Decoding levels that carry bytes gives the bytes back. */
  lemma {:induction false} LevelsBytesRoundTrip(bs: seq<bv8>)
    ensures LevelsBytes(BytesBits(bs)) == bs
  {
    if bs != [] {
      var n := |bs| - 1;
      assert bs == bs[..n] + [bs[n]];
      var front, back := BytesBits(bs[..n]), ByteBits(bs[n]);
      assert BytesBits(bs) == front + back;
      LevelsBytesSnoc(front, back);
      LevelsBytesRoundTrip(bs[..n]);
      ByteBitsRoundTrip(bs[n]);
    }
  }

  /** Eight more levels decode to one more byte. */
  lemma LevelsBytesSnoc(front: seq<bool>, back: seq<bool>)
    requires |front| % 8 == 0 && |back| == 8
    ensures LevelsBytes(front + back) == LevelsBytes(front) + [FromBits(back)]
  {
    var levels := front + back;
    assert levels[..|levels| - 8] == front;
    assert levels[|levels| - 8..] == back;
  }

  /** w1_read_rom: send READ ROM and read the eight id bytes into dev. */
  method ReadRom(bus: Bus, dev: array<bv8>)
    requires dev.Length == 8
    modifies bus, dev
    ensures dev[..] == ReadBytes(WriteBits(old(bus.line), ByteBits(READ_ROM)), 8).0
    ensures bus.line == ReadBytes(WriteBits(old(bus.line), ByteBits(READ_ROM)), 8).1
  {
    WriteByte(bus, READ_ROM);
    ghost var l0 := bus.line;
    var i := 0;
    while i < 8
      invariant 0 <= i <= 8
      invariant dev[..i] == ReadBytes(l0, i).0 && bus.line == ReadBytes(l0, i).1
    {
      var b := ReadByte(bus);
      ReadBytesStep(l0, i, i + 1);
      dev[i] := b;
      assert dev[..i + 1] == dev[..i] + [b];
      i := i + 1;
    }
    assert dev[..] == dev[..8];
  }

  /** Right after a reset, READ ROM returns the id the (single) device sends. */
  lemma ReadRomReturnsId(l: Line, id: Id, devices: set<Id>)
    requires |l.incoming| >= 64 && l.incoming[..64] == BytesBits(id)
    ensures ReadBytes(WriteBits(AfterReset(l, devices), ByteBits(READ_ROM)), 8).0 == id
  {
    var l1 := AfterReset(l, devices);
    CommandAfterReset(l1, ByteBits(READ_ROM));
    var l2 := WriteBits(l1, ByteBits(READ_ROM));
    assert ByteBits(READ_ROM) != ByteBits(SEARCH_ROM) by {
      assert ByteBits(READ_ROM)[0] != ByteBits(SEARCH_ROM)[0];
    }
    QuietReads(l2, 64);
    assert Take(l2.incoming, 64) == BytesBits(id);
    LevelsBytesRoundTrip(id);
    ReadBytesLevels(l2, 8);
  }

  /** w1_match_rom: send MATCH ROM and the eight bytes of the id to address. */
  method MatchRom(bus: Bus, id: Id)
    modifies bus
    ensures bus.line == WriteBits(old(bus.line), ByteBits(MATCH_ROM) + BytesBits(id))
  {
    WriteByte(bus, MATCH_ROM);
    assert ByteBits(MATCH_ROM) + BytesBits(id[..0]) == ByteBits(MATCH_ROM);
    var i := 0;
    while i < 8
      invariant 0 <= i <= 8
      invariant bus.line == WriteBits(old(bus.line), ByteBits(MATCH_ROM) + BytesBits(id[..i]))
    {
      WriteByte(bus, id[i]);
      MatchRomStep(old(bus.line), id, i);
      i := i + 1;
    }
    assert id[..8] == id;
  }

  lemma MatchRomStep(l: Line, id: Id, i: int)
    requires 0 <= i < 8
    ensures WriteBits(l, ByteBits(MATCH_ROM) + BytesBits(id[..i + 1])) ==
      WriteBits(WriteBits(l, ByteBits(MATCH_ROM) + BytesBits(id[..i])), ByteBits(id[i]))
  {
    var head := ByteBits(MATCH_ROM) + BytesBits(id[..i]);
    assert BytesBits(id[..i + 1]) == BytesBits(id[..i]) + ByteBits(id[i]) by {
      assert id[..i + 1][..i] == id[..i];
    }
    assert ByteBits(MATCH_ROM) + BytesBits(id[..i + 1]) == head + ByteBits(id[i]);
    WriteBitsAppend(l, head, ByteBits(id[i]));
  }

  /** Addressing different ids puts different bit streams on the line. */
  lemma MatchRomDistinguishes(a: Id, b: Id)
    requires ByteBits(MATCH_ROM) + BytesBits(a) == ByteBits(MATCH_ROM) + BytesBits(b)
    ensures a == b
  {
    var s, t := ByteBits(MATCH_ROM) + BytesBits(a), ByteBits(MATCH_ROM) + BytesBits(b);
    assert BytesBits(a) == s[8..] && BytesBits(b) == t[8..];
    BytesBitsInjective(a, b);
  }

  /** struct w1_search_state, updated in place by each search. */
  class SearchState {
    var lastDeviation: int
    var deviceId: Id

    constructor (c: Cursor)
      ensures Value() == c
    {
      lastDeviation := c.lastDeviation;
      deviceId := c.deviceId;
    }

    function Value(): Cursor
      reads this
    {
      Cursor(lastDeviation, deviceId)
    }
  }

  /**
   * The branches inside the w1_search_rom loop: set or clear bit pos of the
   * id the way the two reads (not both 1) call for, and note a 0-way choice
   * at a discrepancy as the new deviation.
   */
  method ChooseDirection(state: SearchState, pos: int, idBit: bv8, idBitCompl: bv8, newDeviation: int)
    returns (nd: int)
    requires 0 <= pos < 64 && idBit & idBitCompl == 0
    requires idBit in {0, Mask(W1PIN)} && idBitCompl in {0, Mask(W1PIN)}
    modifies state
    ensures state.lastDeviation == old(state.lastDeviation)
    ensures (state.deviceId, nd) ==
      Resolve(pos, state.lastDeviation, old(state.deviceId), newDeviation, idBit != 0, idBitCompl != 0)
  {
    nd := newDeviation;
    if idBit ^ idBitCompl != 0 {
      // every device still taking part has the same bit
      if idBit != 0 {
        state.deviceId := SetBit(state.deviceId, pos, true);
      } else {
        state.deviceId := SetBit(state.deviceId, pos, false);
      }
    } else {
      // the devices differ at this bit
      if pos == state.lastDeviation {
        state.deviceId := SetBit(state.deviceId, pos, true);
      } else if pos > state.lastDeviation {
        state.deviceId := SetBit(state.deviceId, pos, false);
        nd := pos;
      } else if !IdBit(state.deviceId, pos) {
        nd := pos;
      }
    }
  }

  /**
   * One id bit of w1_search_rom: the bit and its complement read and, unless
   * both are 1 (the search fails, the pass aborts here), the path chosen and
   * written back, after which the pass goes on from the next bit among the
   * devices that match the path.
   */
  method SearchBit(bus: Bus, state: SearchState, pos: int, newDeviation: int) returns (failed: bool, nd: int)
    requires 0 <= pos < 64 && bus.line.searching && bus.line.pos == pos && bus.line.phase == TrueBit
    modifies bus, state
    ensures state.lastDeviation == old(state.lastDeviation) && bus.line.incoming == old(bus.line.incoming)
    ensures failed ==> (state.deviceId == old(state.deviceId) &&
      Pass(old(bus.line.active), pos, state.lastDeviation, state.deviceId, newDeviation) == Aborted(state.deviceId))
    ensures !failed ==> (bus.line.searching == (pos + 1 < 64) && bus.line.pos == pos + 1 && bus.line.phase == TrueBit &&
      Pass(bus.line.active, pos + 1, state.lastDeviation, state.deviceId, nd) ==
      Pass(old(bus.line.active), pos, state.lastDeviation, old(state.deviceId), newDeviation))
  {
    ghost var l0 := bus.line;
    var idBit := bus.ReadBit();
    var idBitCompl := bus.ReadBit();
    assert (idBit != 0) == AllOne(l0.active, pos) && (idBitCompl != 0) == AllZero(l0.active, pos) by {
      SearchSlots(l0, false);
    }
    if idBit & idBitCompl != 0 {
      return true, newDeviation;
    }
    nd := ChooseDirection(state, pos, idBit, idBitCompl, newDeviation);
    ghost var v := IdBit(state.deviceId, pos);
    PassUnfold(l0.active, pos, state.lastDeviation, old(state.deviceId), newDeviation, state.deviceId, nd);
    ghost var l2 := bus.line;
    assert l2 == AfterRead(AfterRead(l0));
    var dir := state.deviceId[pos / 8] & Mask(pos % 8);
    assert (dir != 0) == v;
    bus.WriteBit(dir);
    SearchSlots(l0, v);
    failed := false;
  }

  /**
   * w1_search_rom: reset, SEARCH ROM, then for each of the 64 id bits read
   * the bit and its complement, choose the path and write it back.
   */
  method SearchRom(bus: Bus, state: SearchState) returns (r: SearchResult)
    modifies bus, state
    ensures (r, state.Value()) == Search(bus.devices, old(state.Value()))
    ensures bus.line.incoming == old(bus.line.incoming)
  {
    var ret := bus.Reset();
    if ret == W1_INIT_NO_PRESENCE {
      return Failed;
    }
    WriteByte(bus, SEARCH_ROM);
    SearchCommand(old(bus.line), bus.devices);
    ghost var ld := state.lastDeviation;
    ghost var start := Pass(bus.devices, 0, ld, state.deviceId, -1);
    var newDeviation := -1;
    var pos := 0;
    assert bus.line.searching && bus.line.pos == 0 && bus.line.phase == TrueBit;
    while pos < 64
      invariant 0 <= pos <= 64
      invariant bus.line.searching == (pos < 64) && bus.line.pos == pos && bus.line.phase == TrueBit
      invariant bus.line.incoming == old(bus.line.incoming)
      invariant state.lastDeviation == ld
      invariant Pass(bus.line.active, pos, ld, state.deviceId, newDeviation) == start
    {
      var failed;
      failed, newDeviation := SearchBit(bus, state, pos, newDeviation);
      if failed {
        return Failed;
      }
      pos := pos + 1;
    }
    state.lastDeviation := newDeviation;
    if newDeviation == -1 {
      return Done;
    } else {
      return MoreAvail;
    }
  }

  /**
   * w1_find_devices: search until DONE or until the buffer holds bufSize ids;
   * the count is 0 when a search fails.
   */
  method FindDevices(bus: Bus, devBuf: array<Id>, bufSize: nat) returns (cnt: nat)
    requires bufSize <= devBuf.Length && bufSize < 256
    modifies bus, devBuf
    ensures var (ids, failed) := Scan(bus.devices, INITIAL_SEARCH_STATE, bufSize);
      cnt == (if failed then 0 else |ids|) &&
      (forall k :: 0 <= k < |ids| ==> devBuf[k] == ids[k]) &&
      (forall k :: |ids| <= k < devBuf.Length ==> devBuf[k] == old(devBuf[k]))
  {
    cnt := 0;
    var state := new SearchState(INITIAL_SEARCH_STATE);
    ghost var whole := Scan(bus.devices, INITIAL_SEARCH_STATE, bufSize);
    ghost var room: nat := bufSize;
    ghost var acc: seq<Id> := [];
    assert ScanAcc(bus.devices, state.Value(), room, acc) == whole by {
      ScanAccIs(bus.devices, INITIAL_SEARCH_STATE, bufSize, []);
      assert [] + whole.0 == whole.0;
    }
    while cnt < bufSize
      invariant cnt <= bufSize && room == bufSize - cnt
      invariant ScanAcc(bus.devices, state.Value(), room, acc) == whole
      invariant |acc| == cnt && forall k :: 0 <= k < cnt ==> devBuf[k] == acc[k]
      invariant forall k :: cnt <= k < devBuf.Length ==> devBuf[k] == old(devBuf[k])
      invariant fresh(state)
      decreases bufSize - cnt
    {
      ghost var before := state.Value();
      var ret := SearchRom(bus, state);
      ghost var next := state.Value();
      ghost var room', acc' := room - 1, acc + [next.deviceId];
      if ret == Failed {
        ScanAccFailed(bus.devices, before, room, acc);
        return 0;
      }
      devBuf[cnt] := state.deviceId;
      if ret == Done {
        ScanAccDone(bus.devices, before, room, acc, next, acc');
        cnt, room, acc := cnt + 1, room', acc';
        break;
      }
      ScanAccMore(bus.devices, before, room, acc, next, room', acc');
      cnt, room, acc := cnt + 1, room', acc';
      assert state.Value() == next;
    }
  }

  /**
   * w1_id2str: the sixteen hex digits of the id bytes, in order, high
   * nibble first, then a NUL; buf must hold 17 characters.
   */
  method Id2Str(id: Id, buf: array<char>) returns (r: array<char>)
    requires buf.Length >= 17
    modifies buf
    ensures r == buf
    ensures buf[..16] == BytesHex(id) && buf[16] == '\0'
    ensures buf[17..] == old(buf[17..])
  {
    var i := 0;
    while i < 8
      invariant 0 <= i <= 8
      invariant forall k :: 0 <= k < 2 * i ==> buf[k] == BytesHex(id)[k]
      invariant buf[2 * i..] == old(buf[2 * i..])
    {
      var hn := HighNibble(id[i]);
      var ln := LowNibble(id[i]);
      NibblesCompose(id[i]);
      buf[i * 2] := HexDigit(hn);
      buf[i * 2 + 1] := HexDigit(ln);
      BytesHexAt(id, i);
      i := i + 1;
    }
    buf[16] := '\0';
    r := buf;
  }

}
