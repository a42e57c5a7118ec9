/**
 * The half-duplex software UART on the USI of an ATtiny: a receive ring
 * filled by the USI overflow interrupt, a transmit ring emptied by it, and
 * the calls the main program makes on both. The USI shifts the most
 * significant bit first while the line carries the least significant bit
 * first, so the rings hold bit-reversed bytes; the queues below are the
 * bytes in line order.
 */
module UsiUart {
  import opened Bits
  import opened Ring
  import opened CString

  const USI_UART_RX_BUFFER_SIZE: nat := 16
  const USI_UART_TX_BUFFER_SIZE: nat := 16

  /** reverse_byte: swap neighbouring bits, then pairs, then nibbles. */
  function Reverse(b: bv8): bv8
  {
    var b1 := ((b >> 1) & 0x55) | ((b << 1) & 0xaa);
    var b2 := ((b1 >> 2) & 0x33) | ((b1 << 2) & 0xcc);
    ((b2 >> 4) & 0x0f) | ((b2 << 4) & 0xf0)
  }

  /** Bit k of the reversed byte is bit 7 - k of the byte. */
  lemma ReverseBit(b: bv8, k: int)
    requires 0 <= k < 8
    ensures BitSet(Reverse(b), k) == BitSet(b, 7 - k)
  {
    if k == 0 { } else if k == 1 { } else if k == 2 { } else if k == 3 { }
    else if k == 4 { } else if k == 5 { } else if k == 6 { } else { }
  }

  /** Reversing twice gives the byte back. */
  lemma ReverseReverse(b: bv8)
    ensures Reverse(Reverse(b)) == b
  {
    forall k | 0 <= k < 8
      ensures BitSet(Reverse(Reverse(b)), k) == BitSet(b, k)
    {
      ReverseBit(Reverse(b), k);
      ReverseBit(b, 7 - k);
    }
    ByteExt(Reverse(Reverse(b)), b);
  }

  /** The driver's `(i + 1) & MASK` on a buffer index is the next index, that is i + 1 modulo the size. */
  lemma MaskedIncrement(x: bv8)
    requires x < 16
    ensures ((x + 1) & 15) as int == Next(x as int, USI_UART_RX_BUFFER_SIZE) == (x as int + 1) % 16
  {
  }

  /** A ring's raw bytes, each reversed into line order. */
  function Reversed(s: seq<bv8>): (r: seq<bv8>)
  {
    seq(|s|, i requires 0 <= i < |s| => Reverse(s[i]))
  }

  /** Storing the reversed c appends c in line order. */
  lemma ReversedPush(q: seq<bv8>, c: bv8)
    ensures Reversed(q + [Reverse(c)]) == Reversed(q) + [c]
  {
    ReverseReverse(c);
  }

  /** Storing a raw byte appends its reversal. */
  lemma ReversedAppend(q: seq<bv8>, x: bv8)
    ensures Reversed(q + [x]) == Reversed(q) + [Reverse(x)]
  {
  }

  /** Taking the first raw byte off takes its reversal off the line-order queue. */
  lemma ReversedPop(x: bv8, q: seq<bv8>)
    ensures Reversed([x] + q) == [Reverse(x)] + Reversed(q)
  {
  }

  /**
   * The bytes usi_uart_recv_until may read before it gives up waiting: the
   * size it was given, or the delimiter arrives first.
   */
  predicate Enough(q: seq<bv8>, size: nat, delimiter: bv8)
  {
    size <= |q| || delimiter in q
  }

  /**
   * How many bytes of q a read up to the delimiter takes, given at most
   * size: all up to and including the first delimiter, or size bytes when
   * none of those is the delimiter.
   */
  function Taken(q: seq<bv8>, size: nat, delimiter: bv8): (k: nat)
    requires Enough(q, size, delimiter)
    ensures k <= size && k <= |q|
    ensures forall j :: 0 <= j < k - 1 ==> q[j] != delimiter
    ensures k == size || (0 < k && q[k - 1] == delimiter)
  {
    if size == 0 then 0
    else if q[0] == delimiter then 1
    else 1 + Taken(q[1..], size - 1, delimiter)
  }

  /** Whether the read ended on the delimiter rather than on the size. */
  predicate EndsOnDelimiter(q: seq<bv8>, size: nat, delimiter: bv8)
    requires Enough(q, size, delimiter)
  {
    var k := Taken(q, size, delimiter);
    0 < k && q[k - 1] == delimiter
  }

  /**
   * Reading byte i of a read that takes more than i bytes: a delimiter there
   * ends the read just after it, and any other byte ends it only when the
   * size is reached.
   */
  lemma TakenStep(q: seq<bv8>, size: nat, delimiter: bv8, i: nat)
    requires Enough(q, size, delimiter) && i < Taken(q, size, delimiter)
    ensures q[i] == delimiter ==> i + 1 == Taken(q, size, delimiter)
    ensures q[i] != delimiter && i + 1 == Taken(q, size, delimiter) ==> i + 1 == size
  {
  }

  class Usi {
    const rxBuffer: array<bv8>
    const txBuffer: array<bv8>
    var rxHead: nat
    var rxTail: nat
    var txHead: nat
    var txTail: nat
    /** tx_current_byte: the raw byte the transmitter is shifting out. */
    var txCurrentByte: bv8

    ghost predicate Valid()
      reads this
    {
      rxBuffer.Length == USI_UART_RX_BUFFER_SIZE && txBuffer.Length == USI_UART_TX_BUFFER_SIZE &&
      rxBuffer != txBuffer &&
      rxHead < USI_UART_RX_BUFFER_SIZE && rxTail < USI_UART_RX_BUFFER_SIZE &&
      txHead < USI_UART_TX_BUFFER_SIZE && txTail < USI_UART_TX_BUFFER_SIZE
    }

    /** The raw received bytes, oldest first. */
    ghost function RxRaw(): seq<bv8>
      requires Valid()
      reads this, rxBuffer
    {
      Queue(rxBuffer[..], rxHead, rxTail)
    }

    /** The received bytes not yet read, in line order, oldest first. */
    ghost function Received(): seq<bv8>
      requires Valid()
      reads this, rxBuffer
    {
      Reversed(RxRaw())
    }

    /** The bytes waiting to be sent, in line order, oldest first. */
    ghost function Pending(): seq<bv8>
      requires Valid()
      reads this, txBuffer
    {
      Reversed(Queue(txBuffer[..], txHead, txTail))
    }

    /** usi_uart_init's rings: all indices zero, as static storage starts. */
    constructor ()
      ensures Valid() && fresh(rxBuffer) && fresh(txBuffer)
      ensures Received() == [] && Pending() == []
    {
      rxBuffer := new bv8[USI_UART_RX_BUFFER_SIZE];
      txBuffer := new bv8[USI_UART_TX_BUFFER_SIZE];
      rxHead, rxTail, txHead, txTail := 0, 0, 0, 0;
      txCurrentByte := 0;
      new;
      Empty(rxBuffer[..], 0);
      Empty(txBuffer[..], 0);
    }

    /**
     * usi_uart_sendc, built without BLOCKING_WRITE: 1 and nothing changed
     * when the transmit ring is full; otherwise c is queued (stored
     * bit-reversed) and 0 returned.
     */
    method Sendc(c: bv8) returns (r: bv8)
      requires Valid()
      modifies this, txBuffer
      ensures Valid() && rxHead == old(rxHead) && rxTail == old(rxTail) && txHead == old(txHead)
      ensures txCurrentByte == old(txCurrentByte)
      ensures r == 0 || r == 1
      ensures r == 1 <==> |old(Pending())| == USI_UART_TX_BUFFER_SIZE - 1
      ensures Pending() == if r == 0 then old(Pending()) + [c] else old(Pending())
    {
      ghost var q := Queue(txBuffer[..], txHead, txTail);
      Capacity(txBuffer[..], txHead, txTail);
      var nextTail := Next(txTail, USI_UART_TX_BUFFER_SIZE);
      if nextTail == txHead {
        return 1;
      }
      Push(txBuffer[..], txHead, txTail, Reverse(c));
      ReversedPush(q, c);
      txBuffer[txTail] := Reverse(c);
      txTail := nextTail;
      return 0;
    }

    /**
     * usi_uart_sends: the text of s sent byte by byte until a send fails;
     * the count of those queued, which is the text cut to the room left in
     * the transmit ring.
     */
    method Sends(s: seq<bv8>) returns (count: nat)
      requires Valid() && 0 in s
      modifies this, txBuffer
      ensures Valid() && rxHead == old(rxHead) && rxTail == old(rxTail) && txHead == old(txHead)
      ensures txCurrentByte == old(txCurrentByte)
      ensures count == Min(Strlen(s), USI_UART_TX_BUFFER_SIZE - 1 - |old(Pending())|) < 256
      ensures Pending() == old(Pending()) + s[..count]
    {
      ghost var q0 := Pending();
      ghost var room := USI_UART_TX_BUFFER_SIZE - 1 - |q0|;
      ghost var len := Strlen(s);
      var i: nat := 0;
      while s[i] != 0
        invariant Valid() && rxHead == old(rxHead) && rxTail == old(rxTail) && txHead == old(txHead)
        invariant txCurrentByte == old(txCurrentByte)
        invariant i <= len && i <= room
        invariant Pending() == q0 + s[..i]
        decreases len - i
      {
        InText(s, i);
        ghost var q := Pending();
        var r := Sendc(s[i]);
        if r != 0 {
          break;
        }
        AppendNext(q0, s, i, q, Pending());
        i := i + 1;
      }
      TextOrRoom(s, i, room);
      count := i;
    }

    /** usi_uart_data_available: the number of received bytes not yet read. */
    function DataAvailable(): (n: nat)
      requires Valid()
      reads this, rxBuffer
      ensures n == |Received()| && n < USI_UART_RX_BUFFER_SIZE
      ensures n == (rxTail - rxHead) % USI_UART_RX_BUFFER_SIZE
    {
      CountIsMod(rxHead, rxTail, USI_UART_RX_BUFFER_SIZE);
      if rxTail >= rxHead then rxTail - rxHead else USI_UART_RX_BUFFER_SIZE - rxHead + rxTail
    }

    /**
     * usi_uart_recvc: 1 and dest unchanged when nothing was received;
     * otherwise 0 and the oldest byte, taken off the ring.
     */
    method Recvc(dest: bv8) returns (r: bv8, c: bv8)
      requires Valid()
      modifies this
      ensures Valid() && rxTail == old(rxTail) && txHead == old(txHead) && txTail == old(txTail)
      ensures txCurrentByte == old(txCurrentByte)
      ensures r == 0 || r == 1
      ensures r == 1 <==> old(Received()) == []
      ensures r == 1 ==> c == dest && Received() == old(Received())
      ensures r == 0 ==> c == old(Received())[0] && Received() == old(Received())[1..]
    {
      Capacity(rxBuffer[..], rxHead, rxTail);
      if rxHead == rxTail {
        return 1, dest;
      }
      Pop(rxBuffer[..], rxHead, rxTail);
      ReversedPop(rxBuffer[rxHead], Queue(rxBuffer[..], Next(rxHead, USI_UART_RX_BUFFER_SIZE), rxTail));
      c := Reverse(rxBuffer[rxHead]);
      rxHead := Next(rxHead, USI_UART_RX_BUFFER_SIZE);
      r := 0;
    }

    /**
     * One step of the receive loops: the oldest byte, q0[i] when the first i
     * bytes of q0 are already in buf, moved to buf[i] and taken off the ring.
     */
    method TakeInto(buf: array<bv8>, i: nat, ghost q0: seq<bv8>, ghost b0: seq<bv8>)
      requires Valid() && buf != rxBuffer && buf != txBuffer && i < buf.Length && |b0| == buf.Length
      requires i < |q0| && Received() == q0[i..] && buf[..i] == q0[..i] && buf[i..] == b0[i..]
      modifies this, buf
      ensures Valid() && rxTail == old(rxTail) && txHead == old(txHead) && txTail == old(txTail)
      ensures txCurrentByte == old(txCurrentByte)
      ensures buf[i] == q0[i] && buf[..i + 1] == q0[..i + 1] && buf[i + 1..] == b0[i + 1..]
      ensures Received() == q0[i + 1..]
    {
      Capacity(rxBuffer[..], rxHead, rxTail);
      Pop(rxBuffer[..], rxHead, rxTail);
      ReversedPop(rxBuffer[rxHead], Queue(rxBuffer[..], Next(rxHead, USI_UART_RX_BUFFER_SIZE), rxTail));
      assert Reverse(rxBuffer[rxHead]) == q0[i];
      buf[i] := Reverse(rxBuffer[rxHead]);
      rxHead := Next(rxHead, USI_UART_RX_BUFFER_SIZE);
      assert q0[i + 1..] == q0[i..][1..];
    }

    /**
     * usi_uart_recvn as written: up to n received bytes moved to buf, oldest
     * first. Its count is incremented once more when the loop stops for n
     * rather than for an empty ring, so it returns n + 1 when more than n
     * bytes were waiting.
     */
    method Recvn(buf: array<bv8>, n: nat) returns (c: nat)
      requires Valid() && n < 256 && n <= buf.Length && buf != rxBuffer && buf != txBuffer
      modifies this, buf
      ensures Valid() && rxTail == old(rxTail) && txHead == old(txHead) && txTail == old(txTail)
      ensures txCurrentByte == old(txCurrentByte)
      ensures var k := Min(n, |old(Received())|);
        buf[..k] == old(Received())[..k] && buf[k..] == old(buf[..])[k..] && Received() == old(Received())[k..]
      ensures c == if |old(Received())| > n then n + 1 else |old(Received())|
    {
      ghost var q0, b0 := Received(), buf[..];
      var i: nat := 0;
      c := 0;
      while rxHead != rxTail
        invariant Valid() && rxTail == old(rxTail) && txHead == old(txHead) && txTail == old(txTail)
        invariant txCurrentByte == old(txCurrentByte)
        invariant c == i && i <= n && i <= |q0|
        invariant buf[..i] == q0[..i] && buf[i..] == b0[i..]
        invariant Received() == q0[i..]
        decreases |q0| - i
      {
        var more := c < n;
        c := c + 1;
        if !more {
          break;
        }
        Capacity(rxBuffer[..], rxHead, rxTail);
        TakeInto(buf, i, q0, b0);
        i := i + 1;
      }
      Capacity(rxBuffer[..], rxHead, rxTail);
    }

    /** usi_uart_recvn with the count taken only for a byte moved: it returns the number of bytes written. */
    method RecvnFixed(buf: array<bv8>, n: nat) returns (c: nat)
      requires Valid() && n < 256 && n <= buf.Length && buf != rxBuffer && buf != txBuffer
      modifies this, buf
      ensures Valid() && rxTail == old(rxTail) && txHead == old(txHead) && txTail == old(txTail)
      ensures txCurrentByte == old(txCurrentByte)
      ensures c == Min(n, |old(Received())|)
      ensures buf[..c] == old(Received())[..c] && buf[c..] == old(buf[..])[c..] && Received() == old(Received())[c..]
    {
      ghost var q0, b0 := Received(), buf[..];
      c := 0;
      while c < n && rxHead != rxTail
        invariant Valid() && rxTail == old(rxTail) && txHead == old(txHead) && txTail == old(txTail)
        invariant txCurrentByte == old(txCurrentByte)
        invariant c <= n && c <= |q0|
        invariant buf[..c] == q0[..c] && buf[c..] == b0[c..]
        invariant Received() == q0[c..]
        decreases |q0| - c
      {
        Capacity(rxBuffer[..], rxHead, rxTail);
        TakeInto(buf, c, q0, b0);
        c := c + 1;
      }
      Capacity(rxBuffer[..], rxHead, rxTail);
    }

    /**
     * usi_uart_recv_until as written: bytes moved to buf until the delimiter
     * (which is stored too) or size bytes. Its count is incremented once
     * more when the loop stops for the size, so it returns size + 1 (as a
     * uint8_t) when no delimiter came. The wait for data becomes the
     * requirement that enough has arrived.
     */
    method RecvUntil(buf: array<bv8>, size: nat, delimiter: bv8) returns (c: nat)
      requires Valid() && size < 256 && size <= buf.Length && buf != rxBuffer && buf != txBuffer
      requires Enough(Received(), size, delimiter)
      modifies this, buf
      ensures Valid() && rxTail == old(rxTail) && txHead == old(txHead) && txTail == old(txTail)
      ensures txCurrentByte == old(txCurrentByte)
      ensures var k := Taken(old(Received()), size, delimiter);
        buf[..k] == old(Received())[..k] && buf[k..] == old(buf[..])[k..] && Received() == old(Received())[k..]
      ensures c == if EndsOnDelimiter(old(Received()), size, delimiter) then Taken(old(Received()), size, delimiter)
                   else (size + 1) % 256
    {
      ghost var q0, b0 := Received(), buf[..];
      ghost var k := Taken(q0, size, delimiter);
      var i: nat := 0;
      var found := false;
      while i < size
        invariant Valid() && rxTail == old(rxTail) && txHead == old(txHead) && txTail == old(txTail)
        invariant txCurrentByte == old(txCurrentByte)
        invariant i <= size && i <= k && (i == k ==> i == size)
        invariant 0 < i ==> q0[i - 1] != delimiter
        invariant buf[..i] == q0[..i] && buf[i..] == b0[i..]
        invariant Received() == q0[i..]
        decreases size - i
      {
        TakenStep(q0, size, delimiter, i);
        TakeInto(buf, i, q0, b0);
        i := i + 1;
        if buf[i - 1] == delimiter {
          assert EndsOnDelimiter(q0, size, delimiter);
          found := true;
          break;
        }
      }
      assert old(Received()) == q0;
      if found {
        assert i == k;
        c := i;
      } else {
        // the loop test `c++ < size` failed and still counted, in a uint8_t
        assert !EndsOnDelimiter(q0, size, delimiter) && i == size;
        c := (i + 1) % 256;
      }
    }

    /** usi_uart_recv_until counting only the bytes it stores: it returns the number of bytes written. */
    method RecvUntilFixed(buf: array<bv8>, size: nat, delimiter: bv8) returns (c: nat)
      requires Valid() && size < 256 && size <= buf.Length && buf != rxBuffer && buf != txBuffer
      requires Enough(Received(), size, delimiter)
      modifies this, buf
      ensures Valid() && rxTail == old(rxTail) && txHead == old(txHead) && txTail == old(txTail)
      ensures txCurrentByte == old(txCurrentByte)
      ensures c == Taken(old(Received()), size, delimiter)
      ensures buf[..c] == old(Received())[..c] && buf[c..] == old(buf[..])[c..] && Received() == old(Received())[c..]
    {
      ghost var q0, b0 := Received(), buf[..];
      ghost var k := Taken(q0, size, delimiter);
      c := 0;
      while c < size
        invariant Valid() && rxTail == old(rxTail) && txHead == old(txHead) && txTail == old(txTail)
        invariant txCurrentByte == old(txCurrentByte)
        invariant c <= size && c <= k && (c == k ==> c == size)
        invariant buf[..c] == q0[..c] && buf[c..] == b0[c..]
        invariant Received() == q0[c..]
        decreases size - c
      {
        TakenStep(q0, size, delimiter, c);
        TakeInto(buf, c, q0, b0);
        c := c + 1;
        if buf[c - 1] == delimiter {
          break;
        }
      }
    }

    /** usi_uart_rx_buffer_clear: everything received is discarded. */
    method RxBufferClear()
      requires Valid()
      modifies this
      ensures Valid() && txHead == old(txHead) && txTail == old(txTail) && txCurrentByte == old(txCurrentByte)
      ensures Received() == [] && rxHead == 0 && rxTail == 0
    {
      rxHead, rxTail := 0, 0;
      Empty(rxBuffer[..], 0);
    }

    /**
     * The USI overflow interrupt at the end of a received frame: the byte
     * in the data register is dropped when the receive ring is full and
     * stored otherwise, which appends its line-order value.
     */
    method OverflowReceive(usidr: bv8)
      requires Valid()
      modifies this, rxBuffer
      ensures Valid() && rxHead == old(rxHead) && txHead == old(txHead) && txTail == old(txTail)
      ensures txCurrentByte == old(txCurrentByte)
      ensures Received() == if |old(Received())| == USI_UART_RX_BUFFER_SIZE - 1 then old(Received())
                            else old(Received()) + [Reverse(usidr)]
    {
      ghost var q := RxRaw();
      Capacity(rxBuffer[..], rxHead, rxTail);
      var newTail := Next(rxTail, USI_UART_RX_BUFFER_SIZE);
      if newTail != rxHead {
        Push(rxBuffer[..], rxHead, rxTail, usidr);
        ReversedAppend(q, usidr);
        rxBuffer[rxTail] := usidr;
        rxTail := newTail;
      }
    }

    /**
     * The USI overflow interrupt while transmitting, between two bytes: the
     * oldest queued byte becomes the current byte and leaves the ring; with
     * nothing queued nothing changes here.
     */
    method OverflowTransmit() returns (started: bool)
      requires Valid()
      modifies this
      ensures Valid() && rxHead == old(rxHead) && rxTail == old(rxTail) && txTail == old(txTail)
      ensures started <==> old(Pending()) != []
      ensures started ==> Reverse(txCurrentByte) == old(Pending())[0] && Pending() == old(Pending())[1..]
      ensures !started ==> txCurrentByte == old(txCurrentByte) && Pending() == old(Pending())
    {
      Capacity(txBuffer[..], txHead, txTail);
      if txHead == txTail {
        return false;
      }
      Pop(txBuffer[..], txHead, txTail);
      ReversedPop(txBuffer[txHead], Queue(txBuffer[..], Next(txHead, USI_UART_TX_BUFFER_SIZE), txTail));
      txCurrentByte := txBuffer[txHead];
      txHead := Next(txHead, USI_UART_TX_BUFFER_SIZE);
      started := true;
    }
  }
}
