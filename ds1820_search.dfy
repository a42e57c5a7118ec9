/**
 * What ds1820_search_bus finds: two passes of the ROM search, the first
 * seeded with the DS18B20 family code and the second with the DS18S20
 * one, each storing ids while they keep the family code of its seed.
 */
module DS1820Search {
  import opened Bits
  import opened W1Bus
  import opened W1Search
  import opened Crc8

  /** Family codes (first id byte). */
  const FC_DS18B20: bv8 := 0x28
  const FC_DS18S20: bv8 := 0x10

  /** The state each pass starts from: last deviation 63, an id holding only the family code. */
  function Seed(family: bv8): (c: Cursor)
    ensures c.lastDeviation == 63 && c.deviceId[0] == family
    ensures forall i :: 1 <= i < 8 ==> c.deviceId[i] == 0
  {
    Cursor(63, [family, 0, 0, 0, 0, 0, 0, 0])
  }

  /**
   * One loop of ds1820_search_bus from state c with `cnt` of the `size`
   * buffer slots taken: the ids it stores, and whether a search failed. It stops when
   * the buffer is full, when an id of another family turns up (not
   * stored), or after DONE.
   */
  function FamilyScan(devices: set<Id>, family: bv8, c: Cursor, cnt: nat, size: nat): (r: (seq<Id>, bool))
    ensures cnt < size ==> cnt + |r.0| <= size
    decreases size - cnt
  {
    if cnt >= size then ([], false)
    else
      var next := Search(devices, c);
      if next.0 == Failed then ([], true)
      else if next.1.deviceId[0] != family then ([], false)
      else if next.0 == Done then ([next.1.deviceId], false)
      else
        var rest := FamilyScan(devices, family, next.1, cnt + 1, size);
        ([next.1.deviceId] + rest.0, rest.1)
  }

  /**
   * The same loop as it runs, with the ids `acc` stored so far: each round
   * either stops or goes on from the new state with one more id stored.
   */
  function FamilyScanAcc(devices: set<Id>, family: bv8, c: Cursor, cnt: nat, size: nat, acc: seq<Id>): (r: (seq<Id>, bool))
    decreases size - cnt
  {
    if cnt >= size then (acc, false)
    else
      var next := Search(devices, c);
      if next.0 == Failed then (acc, true)
      else if next.1.deviceId[0] != family then (acc, false)
      else if next.0 == Done then (acc + [next.1.deviceId], false)
      else FamilyScanAcc(devices, family, next.1, cnt + 1, size, acc + [next.1.deviceId])
  }

  // The rounds of the running loop, one lemma per way a round can end.

  lemma {:induction false} FamilyAccFailed(devices: set<Id>, family: bv8, c: Cursor, cnt: nat, size: nat, acc: seq<Id>)
    requires cnt < size && Search(devices, c).0 == Failed
    ensures FamilyScanAcc(devices, family, c, cnt, size, acc) == (acc, true)
  {
  }

  lemma {:induction false} FamilyAccStops(devices: set<Id>, family: bv8, c: Cursor, cnt: nat, size: nat, acc: seq<Id>, next: Cursor)
    requires cnt < size && Search(devices, c).1 == next && Search(devices, c).0 != Failed
    requires next.deviceId[0] != family
    ensures FamilyScanAcc(devices, family, c, cnt, size, acc) == (acc, false)
  {
  }

  lemma {:induction false} FamilyAccDone(devices: set<Id>, family: bv8, c: Cursor, cnt: nat, size: nat, acc: seq<Id>, next: Cursor,
                                         acc': seq<Id>)
    requires cnt < size && Search(devices, c) == (Done, next) && next.deviceId[0] == family
    requires acc' == acc + [next.deviceId]
    ensures FamilyScanAcc(devices, family, c, cnt, size, acc) == (acc', false)
  {
  }

  lemma {:induction false} FamilyAccMore(devices: set<Id>, family: bv8, c: Cursor, cnt: nat, size: nat, acc: seq<Id>, next: Cursor,
                                         cnt': nat, acc': seq<Id>)
    requires cnt < size && Search(devices, c) == (MoreAvail, next) && next.deviceId[0] == family
    requires cnt' == cnt + 1 && acc' == acc + [next.deviceId]
    ensures FamilyScanAcc(devices, family, c, cnt, size, acc) == FamilyScanAcc(devices, family, next, cnt', size, acc')
  {
  }

  /** A round that stores nothing ends the loop, failed exactly when the search failed. */
  lemma FamilyAccEnd(devices: set<Id>, family: bv8, c: Cursor, cnt: nat, size: nat, acc: seq<Id>, r: SearchResult, next: Cursor)
    requires cnt < size && Search(devices, c) == (r, next) && (r == Failed || next.deviceId[0] != family)
    ensures FamilyScanAcc(devices, family, c, cnt, size, acc) == (acc, r == Failed)
  {
    if r == Failed {
      FamilyAccFailed(devices, family, c, cnt, size, acc);
    } else {
      FamilyAccStops(devices, family, c, cnt, size, acc, next);
    }
  }

  /** A round that stores an id ends the loop after DONE and goes on otherwise. */
  lemma FamilyAccStore(devices: set<Id>, family: bv8, c: Cursor, cnt: nat, size: nat, acc: seq<Id>, r: SearchResult,
                       next: Cursor, cnt': nat, acc': seq<Id>)
    requires cnt < size && Search(devices, c) == (r, next) && r != Failed && next.deviceId[0] == family
    requires cnt' == cnt + 1 && acc' == acc + [next.deviceId]
    ensures r == Done ==> FamilyScanAcc(devices, family, c, cnt, size, acc) == (acc', false)
    ensures r == MoreAvail ==> FamilyScanAcc(devices, family, c, cnt, size, acc) == FamilyScanAcc(devices, family, next, cnt', size, acc')
  {
    if r == Done {
      FamilyAccDone(devices, family, c, cnt, size, acc, next, acc');
    } else {
      FamilyAccMore(devices, family, c, cnt, size, acc, next, cnt', acc');
    }
  }

  /** The running loop ends with the ids stored so far followed by what FamilyScan stores. */
  lemma {:induction false} FamilyScanAccIs(devices: set<Id>, family: bv8, c: Cursor, cnt: nat, size: nat, acc: seq<Id>)
    ensures var r := FamilyScan(devices, family, c, cnt, size);
      FamilyScanAcc(devices, family, c, cnt, size, acc) == (acc + r.0, r.1)
    decreases size - cnt
  {
    if cnt >= size {
      assert acc + [] == acc;
    } else {
      var (r, next) := Search(devices, c);
      if r == Failed {
        FamilyAccFailed(devices, family, c, cnt, size, acc);
        FamilyScanFailed(devices, family, c, cnt, size);
        assert acc + [] == acc;
      } else if next.deviceId[0] != family {
        FamilyAccStops(devices, family, c, cnt, size, acc, next);
        FamilyScanStops(devices, family, c, cnt, size, next);
        assert acc + [] == acc;
      } else if r == Done {
        FamilyAccDone(devices, family, c, cnt, size, acc, next, acc + [next.deviceId]);
        FamilyScanDone(devices, family, c, cnt, size, next);
      } else {
        var cnt', acc' := cnt + 1, acc + [next.deviceId];
        FamilyAccMore(devices, family, c, cnt, size, acc, next, cnt', acc');
        FamilyScanMore(devices, family, c, cnt, size, next, cnt');
        FamilyScanAccIs(devices, family, next, cnt', size, acc');
        StoreOneMore(acc, next.deviceId, FamilyScan(devices, family, next, cnt', size).0);
      }
    }
  }

  /**
   * ds1820_search_bus with a buffer of `size` records: the ids stored by
   * the DS18B20 pass, then those of the DS18S20 pass in the slots left, and
   * whether a search failed (the count returned is then 0).
   */
  function SearchBusScan(devices: set<Id>, size: nat): (r: (seq<Id>, bool))
    ensures |r.0| <= size
  {
    var first := FamilyScan(devices, FC_DS18B20, Seed(FC_DS18B20), 0, size);
    if first.1 then first
    else
      var second := FamilyScan(devices, FC_DS18S20, Seed(FC_DS18S20), |first.0|, size);
      (first.0 + second.0, second.1)
  }

  /** SearchBusScan put together from the outcomes of its two passes, the first from `start` 0 and the second from the count the first reached. */
  lemma SearchBusParts(devices: set<Id>, size: nat, c1: Cursor, start: nat, first: seq<Id>, failed1: bool, cnt1: nat,
                       c2: Cursor, second: seq<Id>, failed2: bool)
    requires c1 == Seed(FC_DS18B20) && (!failed1 ==> c2 == Seed(FC_DS18S20))
    requires start == 0 && (first, failed1) == FamilyScan(devices, FC_DS18B20, c1, start, size)
    requires cnt1 == start + |first|
    requires !failed1 ==> (second, failed2) == FamilyScan(devices, FC_DS18S20, c2, cnt1, size)
    ensures SearchBusScan(devices, size) == if failed1 then (first, true) else (first + second, failed2)
  {
  }

  ghost predicate OfFamily(ids: seq<Id>, family: bv8)
  {
    forall i :: 0 <= i < |ids| ==> ids[i][0] == family
  }

  ghost predicate OnBus(ids: seq<Id>, devices: set<Id>)
  {
    forall i :: 0 <= i < |ids| ==> ids[i] in devices
  }

  // ---------------------------------------------------------------------
  // One pass.

  /** The search after a stored id: it never fails on a populated bus, finds the next device and leaves a valid state. */
  lemma StepAfter(devices: set<Id>, c: Cursor)
    requires Valid(devices, c) && c.lastDeviation >= 0
    ensures var (r, c') := Search(devices, c);
      r != Failed && Valid(devices, c') && Less(c.deviceId, c'.deviceId) &&
      (r == MoreAvail ==> c'.lastDeviation >= 0) &&
      (forall d :: d in devices && Less(c.deviceId, d) ==> d == c'.deviceId || Less(c'.deviceId, d)) &&
      (r == Done <==> Above(devices, c'.deviceId) == {})
  {
    SearchFinds(devices, c);
    NextSearch(devices, c);
  }

  /** From any state, on a populated bus, the search finds a device and leaves a valid state. */
  lemma StepAny(devices: set<Id>, c: Cursor)
    requires devices != {}
    ensures var (r, c') := Search(devices, c);
      r != Failed && Valid(devices, c') && (r == MoreAvail ==> c'.lastDeviation >= 0)
  {
    SearchFinds(devices, c);
  }

  /** An id put before sorted ids that all come after it keeps them sorted. */
  lemma PrependAfter(y: Id, rest: seq<Id>)
    requires Sorted(rest) && forall i :: 0 <= i < |rest| ==> Less(y, rest[i])
    ensures Sorted([y] + rest)
  {
    var ids := [y] + rest;
    forall i, j | 0 <= i < j < |ids|
      ensures Less(ids[i], ids[j])
    {
      assert ids[j] == rest[j - 1];
      if i > 0 {
        assert ids[i] == rest[i - 1];
      }
    }
  }

  /** Prepending an id of the family on the bus, after x and before all of rest, keeps what FamilyScanFrom promises. */
  lemma PrependKeeps(x: Id, y: Id, rest: seq<Id>, family: bv8, devices: set<Id>)
    requires Less(x, y) && y[0] == family && y in devices
    requires Sorted(rest) && OfFamily(rest, family) && OnBus(rest, devices)
    requires forall i :: 0 <= i < |rest| ==> Less(y, rest[i])
    ensures var ids := [y] + rest;
      Sorted(ids) && OfFamily(ids, family) && OnBus(ids, devices) && forall i :: 0 <= i < |ids| ==> Less(x, ids[i])
  {
    PrependAfter(y, rest);
    var ids := [y] + rest;
    forall i | 0 < i < |ids|
      ensures Less(x, ids[i]) && ids[i][0] == family && ids[i] in devices
    {
      assert ids[i] == rest[i - 1];
      LessTransitive(x, y, ids[i]);
    }
  }

  // One round of a pass, one lemma per way it can go; cnt' is the count after it.

  lemma {:induction false} FamilyScanFailed(devices: set<Id>, family: bv8, c: Cursor, cnt: nat, size: nat)
    requires cnt < size && Search(devices, c).0 == Failed
    ensures FamilyScan(devices, family, c, cnt, size) == ([], true)
  {
  }

  lemma {:induction false} FamilyScanStops(devices: set<Id>, family: bv8, c: Cursor, cnt: nat, size: nat, next: Cursor)
    requires cnt < size && Search(devices, c).1 == next && Search(devices, c).0 != Failed
    requires next.deviceId[0] != family
    ensures FamilyScan(devices, family, c, cnt, size) == ([], false)
  {
  }

  lemma {:induction false} FamilyScanDone(devices: set<Id>, family: bv8, c: Cursor, cnt: nat, size: nat, next: Cursor)
    requires cnt < size && Search(devices, c) == (Done, next) && next.deviceId[0] == family
    ensures FamilyScan(devices, family, c, cnt, size) == ([next.deviceId], false)
  {
  }

  lemma {:induction false} FamilyScanMore(devices: set<Id>, family: bv8, c: Cursor, cnt: nat, size: nat, next: Cursor, cnt': nat)
    requires cnt < size && Search(devices, c) == (MoreAvail, next) && next.deviceId[0] == family && cnt' == cnt + 1
    ensures FamilyScan(devices, family, c, cnt, size) ==
      ([next.deviceId] + FamilyScan(devices, family, next, cnt', size).0, FamilyScan(devices, family, next, cnt', size).1)
  {
  }

  /** What a pass stores from state c, given the search's result there, in terms of what it stores after it. */
  lemma FamilyStep(devices: set<Id>, family: bv8, c: Cursor, cnt: nat, size: nat, r: SearchResult, next: Cursor, cnt': nat)
    requires cnt < size && Search(devices, c) == (r, next) && r != Failed && cnt' == cnt + 1
    ensures var ids := FamilyScan(devices, family, c, cnt, size);
      if next.deviceId[0] != family then ids == ([], false)
      else if r == Done then ids == ([next.deviceId], false)
      else ids == ([next.deviceId] + FamilyScan(devices, family, next, cnt', size).0, FamilyScan(devices, family, next, cnt', size).1)
  {
    if next.deviceId[0] != family {
      FamilyScanStops(devices, family, c, cnt, size, next);
    } else if r == Done {
      FamilyScanDone(devices, family, c, cnt, size, next);
    } else {
      FamilyScanMore(devices, family, c, cnt, size, next, cnt');
    }
  }

  /** After a valid state, a pass stores devices of its family that come after that state's id, in increasing order. */
  lemma {:induction false} FamilyScanFrom(devices: set<Id>, family: bv8, c: Cursor, cnt: nat, size: nat)
    requires Valid(devices, c) && c.lastDeviation >= 0
    ensures var r := FamilyScan(devices, family, c, cnt, size);
      !r.1 && Sorted(r.0) && OfFamily(r.0, family) && OnBus(r.0, devices) &&
      forall i :: 0 <= i < |r.0| ==> Less(c.deviceId, r.0[i])
    decreases size - cnt
  {
    if cnt < size {
      var (res, next) := Search(devices, c);
      StepAfter(devices, c);
      var y := next.deviceId;
      if y[0] != family {
        FamilyScanStops(devices, family, c, cnt, size, next);
      } else if res == Done {
        FamilyScanDone(devices, family, c, cnt, size, next);
      } else {
        var cnt' := cnt + 1;
        FamilyScanMore(devices, family, c, cnt, size, next, cnt');
        FamilyScanFrom(devices, family, next, cnt', size);
        PrependKeeps(c.deviceId, y, FamilyScan(devices, family, next, cnt', size).0, family, devices);
      }
    }
  }

  /** On a populated bus a pass never fails and stores distinct devices of its family in increasing order. */
  lemma FamilyScanSound(devices: set<Id>, family: bv8, c: Cursor, cnt: nat, size: nat)
    requires devices != {}
    ensures var r := FamilyScan(devices, family, c, cnt, size);
      !r.1 && Sorted(r.0) && OfFamily(r.0, family) && OnBus(r.0, devices)
  {
    if cnt < size {
      var step := Search(devices, c);
      var res, next, cnt' := step.0, step.1, cnt + 1;
      StepAny(devices, c);
      FamilyStep(devices, family, c, cnt, size, res, next, cnt');
      var y := next.deviceId;
      if y[0] == family && res == MoreAvail {
        var rest := FamilyScan(devices, family, next, cnt', size);
        FamilyScanFrom(devices, family, next, cnt', size);
        PrependAfter(y, rest.0);
      }
    }
  }

  /** On an empty bus the first search of a pass fails. */
  lemma FamilyScanEmpty(devices: set<Id>, family: bv8, c: Cursor, cnt: nat, size: nat)
    requires devices == {} && cnt < size
    ensures FamilyScan(devices, family, c, cnt, size) == ([], true)
  {
  }

  // ---------------------------------------------------------------------
  // The seeded search.

  /** Bits 0 to 7 of an id are the bits of its family code. */
  lemma FamilyBits(x: Id, y: Id)
    requires Agree(x, y, 8)
    ensures x[0] == y[0]
  {
    forall k | 0 <= k < 8
      ensures BitSet(x[0], k) == BitSet(y[0], k)
    {
      assert IdBit(x, k) == IdBit(y, k);
    }
    ByteExt(x[0], y[0]);
  }

  lemma SameFamilyAgrees(x: Id, y: Id, p: int)
    requires x[0] == y[0] && 0 <= p < 8
    ensures IdBit(x, p) == IdBit(y, p)
  {
  }

  /**
   * Below its last deviation the search leaves the seed's bits only where
   * every candidate device forces it; a device f with the seed's family
   * code therefore keeps agreeing with the id found over the family byte.
   */
  lemma {:induction false} FollowsFamily(devices: set<Id>, x: Id, y: Id, f: Id, n: int)
    requires f in devices && FollowsBelow(devices, x, y, 63) && x[0] == f[0] && 0 <= n <= 8
    ensures Agree(y, f, n)
  {
    if n > 0 {
      FollowsFamily(devices, x, y, f, n - 1);
      SameFamilyAgrees(x, f, n - 1);
    }
  }

  /** When a device of the family is on the bus, the seeded search finds a device of that family. */
  lemma SeedFindsFamily(devices: set<Id>, family: bv8, f: Id)
    requires f in devices && f[0] == family
    ensures var (r, c') := Search(devices, Seed(family));
      r != Failed && c'.deviceId[0] == family
  {
    var c := Seed(family);
    SearchFinds(devices, c);
    var y := Search(devices, c).1.deviceId;
    FollowsFamily(devices, c.deviceId, y, f, 8);
    FamilyBits(y, f);
  }

  /**
   * Ids are ordered bit by bit from bit 0, and bits 0 to 7 are the family
   * code, so the devices of one family come one after another: whatever
   * lies between two devices of a family belongs to it.
   */
  lemma FamilyBetween(z: Id, w: Id, d: Id)
    requires Less(z, w) && Less(w, d) && z[0] == d[0]
    ensures w[0] == z[0]
  {
    var p :| 0 <= p < 64 && Agree(z, w, p) && !IdBit(z, p) && IdBit(w, p);
    var q :| 0 <= q < 64 && Agree(w, d, q) && !IdBit(w, q) && IdBit(d, q);
    if p < 8 {
      SameFamilyAgrees(z, d, p);
      if q < p {
        assert IdBit(w, q) == IdBit(z, q);
        SameFamilyAgrees(z, d, q);
      }
      assert false;
    }
    FamilyBits(z, w);
  }

  /**
   * After a valid state holding an id of the family, a pass skips no
   * device of that family that comes later: all of them are stored, unless
   * the buffer filled.
   */
  lemma {:induction false} FamilyScanComplete(devices: set<Id>, family: bv8, c: Cursor, cnt: nat, size: nat)
    requires Valid(devices, c) && c.lastDeviation >= 0 && c.deviceId[0] == family
    ensures var r := FamilyScan(devices, family, c, cnt, size);
      cnt + |r.0| >= size || forall d :: d in devices && d[0] == family && Less(c.deviceId, d) ==> d in r.0
    decreases size - cnt
  {
    if cnt < size {
      var step := Search(devices, c);
      var res, next, cnt' := step.0, step.1, cnt + 1;
      StepAfter(devices, c);
      FamilyStep(devices, family, c, cnt, size, res, next, cnt');
      var x, y := c.deviceId, next.deviceId;
      forall d | d in devices && d[0] == family && Less(x, d) && d != y
        ensures y[0] == family && res == MoreAvail && Less(y, d)
      {
        FamilyBetween(x, y, d);
        assert d in Above(devices, y);
      }
      if y[0] == family && res == MoreAvail {
        FamilyScanComplete(devices, family, next, cnt', size);
      }
    }
  }

  // ---------------------------------------------------------------------
  // Which device the seeded search finds first.

  /** The byte of an id whose eight bits agree with those of another id is the same byte. */
  lemma ByteFromBits(x: Id, y: Id, i: int)
    requires 0 <= i < 8 && forall q :: 8 * i <= q < 8 * i + 8 ==> IdBit(x, q) == IdBit(y, q)
    ensures x[i] == y[i]
  {
    forall k | 0 <= k < 8
      ensures BitSet(x[i], k) == BitSet(y[i], k)
    {
      assert (8 * i + k) / 8 == i && (8 * i + k) % 8 == k;
      assert IdBit(x, 8 * i + k) == IdBit(y, 8 * i + k);
    }
    ByteExt(x[i], y[i]);
  }

  /** Bit p of a seed lies in one of its zero bytes once past the family byte. */
  lemma SeedBitZero(family: bv8, p: int)
    requires 8 <= p < 64
    ensures !IdBit(Seed(family).deviceId, p)
  {
    var x := Seed(family).deviceId;
    assert x[p / 8] == 0;
  }

  /**
   * The seeded search takes the family's bits and then 0 at every
   * discrepancy up to bit 62, but 1 at bit 63, its last deviation: a device
   * of the family that comes before the one found differs from it in bit
   * 63 only.
   */
  lemma SeedMissesOnlyTwin(devices: set<Id>, family: bv8, d: Id)
    requires d in devices && d[0] == family
    ensures var y := Search(devices, Seed(family)).1.deviceId;
      Less(d, y) ==> Agree(d, y, 63)
  {
    var c := Seed(family);
    SearchFinds(devices, c);
    SeedFindsFamily(devices, family, d);
    var y := Search(devices, c).1.deviceId;
    if Less(d, y) {
      var p :| 0 <= p < 64 && Agree(d, y, p) && !IdBit(d, p) && IdBit(y, p);
      if p < 8 {
        SameFamilyAgrees(d, y, p);
      } else if p < 63 {
        SeedBitZero(family, p);
        assert Agree(y, d, p);
        assert false;
      }
    }
  }

  /** The id's last byte is the CRC of the first seven, as on every genuine device. */
  ghost predicate CrcValid(d: Id)
  {
    Crc(d[..7]) == d[7]
  }

  /** Two ids with correct CRCs that agree on bits 0 to 62 are the same id: the CRC byte fixes bit 63. */
  lemma NoCrcTwins(x: Id, y: Id)
    requires CrcValid(x) && CrcValid(y) && Agree(x, y, 63)
    ensures x == y
  {
    forall i | 0 <= i < 7
      ensures x[i] == y[i]
    {
      ByteFromBits(x, y, i);
    }
    assert x[..7] == y[..7];
    forall q | 0 <= q < 64
      ensures IdBit(x, q) == IdBit(y, q)
    {
    }
    IdExt(x, y);
  }

  /** On a bus of genuine devices the seeded search finds the first device of the family. */
  lemma SeedFindsLeast(devices: set<Id>, family: bv8, d: Id)
    requires forall e :: e in devices ==> CrcValid(e)
    requires d in devices && d[0] == family
    ensures var y := Search(devices, Seed(family)).1.deviceId;
      y in devices && y[0] == family && (d == y || Less(y, d))
  {
    var c := Seed(family);
    SearchFinds(devices, c);
    SeedFindsFamily(devices, family, d);
    var y := Search(devices, c).1.deviceId;
    SeedMissesOnlyTwin(devices, family, d);
    LessTotal(d, y);
    if Less(d, y) {
      NoCrcTwins(d, y);
      LessAsymmetric(d, y);
    }
  }

  /** On a bus of genuine devices a pass stores every device of its family, unless the buffer fills. */
  lemma FamilyScanAll(devices: set<Id>, family: bv8, cnt: nat, size: nat)
    requires forall e :: e in devices ==> CrcValid(e)
    ensures var r := FamilyScan(devices, family, Seed(family), cnt, size);
      cnt + |r.0| >= size || forall d :: d in devices && d[0] == family ==> d in r.0
  {
    var c := Seed(family);
    if cnt < size && exists f :: f in devices && f[0] == family {
      var f :| f in devices && f[0] == family;
      var step := Search(devices, c);
      var res, next, cnt' := step.0, step.1, cnt + 1;
      SearchFinds(devices, c);
      StepAny(devices, c);
      SeedFindsLeast(devices, family, f);
      FamilyStep(devices, family, c, cnt, size, res, next, cnt');
      var y := next.deviceId;
      LastIffNoBranch(devices, y);
      forall d | d in devices && d[0] == family && d != y
        ensures res == MoreAvail && Less(y, d)
      {
        SeedFindsLeast(devices, family, d);
        assert d in Above(devices, y);
      }
      if res == MoreAvail {
        FamilyScanComplete(devices, family, next, cnt', size);
      }
    }
  }

  // ---------------------------------------------------------------------
  // The whole search.

  /** DS18B20 ids in order followed by DS18S20 ids in order. */
  ghost predicate Grouped(ids: seq<Id>)
  {
    exists k :: 0 <= k <= |ids| &&
      OfFamily(ids[..k], FC_DS18B20) && Sorted(ids[..k]) && OfFamily(ids[k..], FC_DS18S20) && Sorted(ids[k..])
  }

  /** Two groups of different families, each in increasing order, hold no id twice. */
  lemma GroupsDistinct(a: seq<Id>, b: seq<Id>)
    requires OfFamily(a, FC_DS18B20) && Sorted(a) && OfFamily(b, FC_DS18S20) && Sorted(b)
    ensures Grouped(a + b) && forall i, j :: 0 <= i < j < |a + b| ==> (a + b)[i] != (a + b)[j]
  {
    var ids, k := a + b, |a|;
    assert ids[..k] == a && ids[k..] == b;
    forall i, j | 0 <= i < j < |ids|
      ensures ids[i] != ids[j]
    {
      if j < k {
        LessAsymmetric(ids[i], ids[j]);
      } else if k <= i {
        assert ids[i] == b[i - k] && ids[j] == b[j - k];
        LessAsymmetric(ids[i], ids[j]);
      } else {
        assert ids[i] == a[i] && ids[j] == b[j - k];
      }
    }
  }

  lemma OnBusJoin(a: seq<Id>, b: seq<Id>, devices: set<Id>)
    requires OnBus(a, devices) && OnBus(b, devices)
    ensures OnBus(a + b, devices)
  {
    forall i | 0 <= i < |a + b|
      ensures (a + b)[i] in devices
    {
      if i >= |a| {
        assert (a + b)[i] == b[i - |a|];
      }
    }
  }

  /**
   * ds1820_search_bus reports a failure exactly when a buffer is offered
   * and no device answers. Otherwise it stores at most `size` ids of
   * devices on the bus: first DS18B20s, then DS18S20s, each group in
   * increasing order, so no device twice.
   */
  lemma SearchBusSound(devices: set<Id>, size: nat)
    ensures var (ids, failed) := SearchBusScan(devices, size);
      (failed <==> devices == {} && size > 0) && OnBus(ids, devices) && Grouped(ids) &&
      forall i, j :: 0 <= i < j < |ids| ==> ids[i] != ids[j]
  {
    var first := FamilyScan(devices, FC_DS18B20, Seed(FC_DS18B20), 0, size);
    if devices == {} {
      var none: seq<Id> := [];
      GroupsDistinct(none, none);
      assert none + none == none;
      if size > 0 {
        FamilyScanEmpty(devices, FC_DS18B20, Seed(FC_DS18B20), 0, size);
      } else {
        assert SearchBusScan(devices, size) == (none, false);
      }
    } else {
      FamilyScanSound(devices, FC_DS18B20, Seed(FC_DS18B20), 0, size);
      var second := FamilyScan(devices, FC_DS18S20, Seed(FC_DS18S20), |first.0|, size);
      FamilyScanSound(devices, FC_DS18S20, Seed(FC_DS18S20), |first.0|, size);
      assert SearchBusScan(devices, size) == (first.0 + second.0, second.1);
      GroupsDistinct(first.0, second.0);
      OnBusJoin(first.0, second.0, devices);
    }
  }

  /**
   * On a bus of genuine devices ds1820_search_bus stores every DS18B20 and
   * every DS18S20 on it, unless it fills the buffer.
   */
  lemma SearchBusComplete(devices: set<Id>, size: nat)
    requires forall e :: e in devices ==> CrcValid(e)
    ensures var (ids, failed) := SearchBusScan(devices, size);
      |ids| == size || forall d :: d in devices && (d[0] == FC_DS18B20 || d[0] == FC_DS18S20) ==> d in ids
  {
    var first := FamilyScan(devices, FC_DS18B20, Seed(FC_DS18B20), 0, size);
    FamilyScanAll(devices, FC_DS18B20, 0, size);
    if !first.1 {
      FamilyScanAll(devices, FC_DS18S20, |first.0|, size);
    } else if devices != {} {
      FamilyScanSound(devices, FC_DS18B20, Seed(FC_DS18B20), 0, size);
    }
  }
}
