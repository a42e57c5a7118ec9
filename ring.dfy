/**
 * The ring buffers of both serial drivers: a buffer of n cells with a read
 * index `start` and a write index `end`. The bytes waiting are those from
 * start up to (not including) end, wrapping past the last cell; start ==
 * end means empty, so at most n - 1 bytes fit.
 */
module Ring {

  /** An index that may have run past the last cell, brought back into the buffer. */
  function Wrap(k: nat, n: nat): (j: nat)
    requires k < 2 * n
    ensures j < n
  {
    if k < n then k else k - n
  }

  /** The number of entries: end - start, or that plus n when end has wrapped. */
  function Count(start: nat, end: nat, n: nat): (c: nat)
    requires start < n && end < n
    ensures c < n
  {
    if start <= end then end - start else n - start + end
  }

  /** The queue a ring holds, oldest first. */
  function Queue<T>(cells: seq<T>, start: nat, end: nat): (q: seq<T>)
    requires start < |cells| && end < |cells|
    ensures |q| == Count(start, end, |cells|)
    ensures forall i :: 0 <= i < |q| ==> q[i] == cells[Wrap(start + i, |cells|)]
  {
    if start <= end then cells[start..end] else cells[start..] + cells[..end]
  }

  /** The next index: 0 after the last cell. */
  function Next(i: nat, n: nat): (j: nat)
    requires i < n
    ensures j < n
  {
    if i == n - 1 then 0 else i + 1
  }

  /** A ring is full when its write index is just behind the read index. */
  predicate Full(start: nat, end: nat, n: nat)
    requires start < n && end < n
  {
    Next(end, n) == start
  }

  /** The buffer sizes the drivers use, all powers of two. */
  predicate DriverSize(n: nat)
  {
    n == 16 || n == 32
  }

  /** Next is the increment modulo n. */
  lemma NextIsMod(i: nat, n: nat)
    requires i < n && DriverSize(n)
    ensures Next(i, n) == (i + 1) % n
  {
  }

  /** Count is the difference of the indices modulo n. */
  lemma CountIsMod(start: nat, end: nat, n: nat)
    requires start < n && end < n && DriverSize(n)
    ensures Count(start, end, n) == (end - start) % n
  {
  }

  /** A ring never holds more than n - 1 entries, exactly that many when full, and none when the indices meet. */
  lemma Capacity<T>(cells: seq<T>, start: nat, end: nat)
    requires start < |cells| && end < |cells|
    ensures |Queue(cells, start, end)| < |cells|
    ensures Full(start, end, |cells|) <==> |Queue(cells, start, end)| == |cells| - 1
    ensures start == end <==> Queue(cells, start, end) == []
  {
  }

  /** Writing x at end and moving end on appends x, when the ring is not full; the other entries stay. */
  lemma Push<T>(cells: seq<T>, start: nat, end: nat, x: T)
    requires start < |cells| && end < |cells| && !Full(start, end, |cells|)
    ensures Queue(cells[end := x], start, Next(end, |cells|)) == Queue(cells, start, end) + [x]
  {
    var n := |cells|;
    var q, q' := Queue(cells, start, end), Queue(cells[end := x], start, Next(end, n));
    assert |q'| == |q| + 1;
    forall i | 0 <= i < |q'|
      ensures q'[i] == (q + [x])[i]
    {
      if i < |q| {
        assert Wrap(start + i, n) != end;
      } else {
        assert Wrap(start + i, n) == end;
      }
    }
  }

  /** Moving start on drops the oldest entry, which is the cell at start. */
  lemma Pop<T>(cells: seq<T>, start: nat, end: nat)
    requires start < |cells| && end < |cells| && start != end
    ensures Queue(cells, start, end) == [cells[start]] + Queue(cells, Next(start, |cells|), end)
  {
    var n := |cells|;
    var q, q' := Queue(cells, start, end), Queue(cells, Next(start, n), end);
    assert |q| == |q'| + 1;
    forall i | 0 < i < |q|
      ensures q[i] == q'[i - 1]
    {
      assert Wrap(start + i, n) == Wrap(Next(start, n) + (i - 1), n);
    }
  }

  /** A ring with both indices at the same cell is empty. */
  lemma Empty<T>(cells: seq<T>, i: nat)
    requires i < |cells|
    ensures Queue(cells, i, i) == []
  {
  }
}
