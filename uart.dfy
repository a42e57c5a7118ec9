/**
 * The interrupt-driven hardware USART driver: a receive ring filled by the
 * receive-complete interrupt and emptied by uart_getc, and a transmit ring
 * filled by uart_putc and emptied by the data-register-empty interrupt,
 * which the driver enables while the transmit ring holds data. The rings'
 * pointers are indices here; the bytes written to UDR are recorded in
 * `sent`.
 */
module Uart {
  import opened Bits
  import opened Ring
  import opened Hex
  import opened CString

  const RX_BUFFERSIZE: nat := 16
  const TX_BUFFERSIZE: nat := 32

  /**
   * The full test as the driver writes it on pointers: the write pointer on
   * the last cell with the read pointer on the first, or the write pointer
   * one cell before the read pointer.
   */
  predicate FullTest(start: nat, end: nat, n: nat)
  {
    (end == n - 1 && start == 0) || end == start - 1
  }

  /** The driver's full test is the ring being full, that is (end + 1) mod n == start. */
  lemma FullTestIsFull(start: nat, end: nat, n: nat)
    requires start < n && end < n && DriverSize(n)
    ensures FullTest(start, end, n) <==> Full(start, end, n)
    ensures FullTest(start, end, n) <==> (end + 1) % n == start
  {
    NextIsMod(end, n);
  }

  class Usart {
    const rxBuf: array<bv8>
    const txBuf: array<bv8>
    var rxStart: nat
    var rxEnd: nat
    var txStart: nat
    var txEnd: nat
    /** UDRIE: the data-register-empty interrupt is enabled. */
    var udrie: bool
    /** The bytes written to UDR so far. */
    var sent: seq<bv8>

    ghost predicate Valid()
      reads this
    {
      rxBuf.Length == RX_BUFFERSIZE && txBuf.Length == TX_BUFFERSIZE && rxBuf != txBuf &&
      rxStart < RX_BUFFERSIZE && rxEnd < RX_BUFFERSIZE && txStart < TX_BUFFERSIZE && txEnd < TX_BUFFERSIZE &&
      udrie == (txStart != txEnd)
    }

    /** The received bytes not yet fetched, oldest first. */
    ghost function RxQueue(): seq<bv8>
      requires Valid()
      reads this, rxBuf
    {
      Queue(rxBuf[..], rxStart, rxEnd)
    }

    /** The bytes waiting to be sent, oldest first. */
    ghost function TxQueue(): seq<bv8>
      requires Valid()
      reads this, txBuf
    {
      Queue(txBuf[..], txStart, txEnd)
    }

    /** uart_init's ring set-up: all four pointers at the start of their buffers. */
    constructor ()
      ensures Valid() && fresh(rxBuf) && fresh(txBuf)
      ensures RxQueue() == [] && TxQueue() == [] && sent == [] && !udrie
    {
      rxBuf := new bv8[RX_BUFFERSIZE];
      txBuf := new bv8[TX_BUFFERSIZE];
      rxStart, rxEnd, txStart, txEnd := 0, 0, 0, 0;
      udrie, sent := false, [];
      new;
      Empty(rxBuf[..], 0);
      Empty(txBuf[..], 0);
    }

    /**
     * uart_putc, built without TX_BLOCK_ON_FULL_BUFFER: 1 and nothing
     * changed when the transmit ring is full; otherwise c is queued, the
     * interrupt enabled and 0 returned.
     */
    method Putc(c: bv8) returns (r: bv8)
      requires Valid()
      modifies this, txBuf
      ensures Valid() && rxStart == old(rxStart) && rxEnd == old(rxEnd) && txStart == old(txStart) && sent == old(sent)
      ensures r == 0 || r == 1
      ensures r == 1 <==> |old(TxQueue())| == TX_BUFFERSIZE - 1
      ensures TxQueue() == if r == 0 then old(TxQueue()) + [c] else old(TxQueue())
    {
      FullTestIsFull(txStart, txEnd, TX_BUFFERSIZE);
      Capacity(txBuf[..], txStart, txEnd);
      if FullTest(txStart, txEnd, TX_BUFFERSIZE) {
        return 1;
      }
      Push(txBuf[..], txStart, txEnd, c);
      txBuf[txEnd] := c;
      txEnd := Next(txEnd, TX_BUFFERSIZE);
      udrie := true;
      return 0;
    }

    /**
     * uart_puts: the text of s (the bytes before its NUL) put one by one
     * until a put fails; the count of those queued. With nothing sent
     * meanwhile that is the text, cut to the room left in the ring.
     */
    method Puts(s: seq<bv8>) returns (count: nat)
      requires Valid() && 0 in s
      modifies this, txBuf
      ensures Valid() && rxStart == old(rxStart) && rxEnd == old(rxEnd) && txStart == old(txStart) && sent == old(sent)
      ensures count == Min(Strlen(s), TX_BUFFERSIZE - 1 - |old(TxQueue())|) < 256
      ensures TxQueue() == old(TxQueue()) + s[..count]
    {
      ghost var q0 := TxQueue();
      ghost var room := TX_BUFFERSIZE - 1 - |q0|;
      ghost var len := Strlen(s);
      var i: nat := 0;
      while s[i] != 0
        invariant Valid() && rxStart == old(rxStart) && rxEnd == old(rxEnd) && txStart == old(txStart) && sent == old(sent)
        invariant i <= len && i <= room
        invariant TxQueue() == q0 + s[..i]
        decreases len - i
      {
        InText(s, i);
        ghost var q := TxQueue();
        var r := Putc(s[i]);
        if r != 0 {
          break;
        }
        AppendNext(q0, s, i, q, TxQueue());
        i := i + 1;
      }
      TextOrRoom(s, i, room);
      count := i;
    }

    /**
     * uart_putb: the two upper-case hex digits of b, high nibble first, each
     * put with Putc; 1 when either put fails, and then the high digit alone
     * is queued if there was room for one.
     */
    method Putb(b: bv8) returns (r: bv8)
      requires Valid()
      modifies this, txBuf
      ensures Valid() && rxStart == old(rxStart) && rxEnd == old(rxEnd) && sent == old(sent)
      ensures var digits := [DigitByte(HighNibble(b)), DigitByte(LowNibble(b))];
        var k := Min(2, TX_BUFFERSIZE - 1 - |old(TxQueue())|);
        (r == 0 <==> k == 2) && (r == 0 || r == 1) && TxQueue() == old(TxQueue()) + digits[..k]
    {
      var hn := DigitByte(HighNibble(b));
      var ln := DigitByte(LowNibble(b));
      ghost var q0 := TxQueue();
      r := Putc(hn);
      if r != 0 {
        assert [hn, ln][..0] == [];
        return 1;
      }
      r := Putc(ln);
      if r != 0 {
        assert [hn, ln][..1] == [hn];
        return 1;
      }
      assert TxQueue() == q0 + [hn] + [ln] == q0 + [hn, ln][..2];
      return 0;
    }

    /** uart_getc: 1 and dest unchanged when nothing was received; otherwise 0 and the oldest byte, taken off the ring. */
    method Getc(dest: bv8) returns (r: bv8, c: bv8)
      requires Valid()
      modifies this
      ensures Valid() && txStart == old(txStart) && txEnd == old(txEnd) && rxEnd == old(rxEnd)
      ensures udrie == old(udrie) && sent == old(sent)
      ensures r == 0 || r == 1
      ensures r == 1 <==> old(RxQueue()) == []
      ensures r == 1 ==> c == dest && RxQueue() == old(RxQueue())
      ensures r == 0 ==> c == old(RxQueue())[0] && RxQueue() == old(RxQueue())[1..]
    {
      Capacity(rxBuf[..], rxStart, rxEnd);
      if rxStart == rxEnd {
        return 1, dest;
      }
      Pop(rxBuf[..], rxStart, rxEnd);
      c := rxBuf[rxStart];
      rxStart := Next(rxStart, RX_BUFFERSIZE);
      r := 0;
    }

    /** The receive-complete interrupt: the byte read from UDR is dropped when the ring is full and queued otherwise. */
    method ReceiveComplete(udr: bv8)
      requires Valid()
      modifies this, rxBuf
      ensures Valid() && txStart == old(txStart) && txEnd == old(txEnd) && rxStart == old(rxStart)
      ensures udrie == old(udrie) && sent == old(sent)
      ensures RxQueue() == if |old(RxQueue())| == RX_BUFFERSIZE - 1 then old(RxQueue()) else old(RxQueue()) + [udr]
    {
      FullTestIsFull(rxStart, rxEnd, RX_BUFFERSIZE);
      Capacity(rxBuf[..], rxStart, rxEnd);
      if FullTest(rxStart, rxEnd, RX_BUFFERSIZE) {
        return;
      }
      Push(rxBuf[..], rxStart, rxEnd, udr);
      rxBuf[rxEnd] := udr;
      rxEnd := Next(rxEnd, RX_BUFFERSIZE);
    }

    /**
     * The data-register-empty interrupt, which runs only while enabled: the
     * oldest queued byte goes to UDR, and the interrupt is disabled exactly
     * when that empties the ring.
     */
    method DataRegisterEmpty()
      requires Valid() && udrie
      modifies this
      ensures Valid() && rxStart == old(rxStart) && rxEnd == old(rxEnd) && txEnd == old(txEnd)
      ensures old(TxQueue()) != [] && sent == old(sent) + [old(TxQueue())[0]]
      ensures TxQueue() == old(TxQueue())[1..]
      ensures udrie <==> TxQueue() != []
    {
      Capacity(txBuf[..], txStart, txEnd);
      Pop(txBuf[..], txStart, txEnd);
      sent := sent + [txBuf[txStart]];
      txStart := Next(txStart, TX_BUFFERSIZE);
      if txStart == txEnd {
        udrie := false;
      }
      Capacity(txBuf[..], txStart, txEnd);
    }
  }
}
