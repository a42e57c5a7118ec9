/**
 * The 1-Wire ROM search of w1_search_rom as a function on the set of
 * devices on the bus, and what it achieves: called repeatedly from the
 * initial state it lists every device exactly once, in increasing order of
 * ids read least significant bit first, and reports DONE exactly with the
 * last one.
 */
module W1Search {
  import opened Bits
  import opened W1Bus

  /** W1_SEARCH_FAILED (-1), W1_SEARCH_DONE (0), W1_SEARCH_MORE_AVAIL (1). */
  datatype SearchResult = Failed | Done | MoreAvail

  /** struct w1_search_state: the last bit where the 0 path was taken at a discrepancy (or -1), and the id found. */
  datatype Cursor = Cursor(lastDeviation: int, deviceId: Id)

  /** W1_INITIAL_SEARCH_STATE. */
  const INITIAL_SEARCH_STATE := Cursor(-1, [0, 0, 0, 0, 0, 0, 0, 0])

  /**
   * One position of the search: given the two bits read, the bit the master
   * writes into the id (and then onto the line), and the new deviation.
   * When the devices agree their bit is taken; at a discrepancy the search
   * takes 1 at the last deviation, 0 beyond it and replays the previous id
   * below it, and records the position whenever it went the 0 way.
   */
  function Resolve(pos: int, ld: int, id: Id, nd: int, idBit: bool, complBit: bool): (r: (Id, int))
    requires 0 <= pos < 64 && !(idBit && complBit)
    ensures forall q :: 0 <= q < 64 && q != pos ==> IdBit(r.0, q) == IdBit(id, q)
    ensures IdBit(r.0, pos) ==
      if idBit != complBit then idBit
      else if pos == ld then true
      else if pos > ld then false
      else IdBit(id, pos)
    ensures r.1 == if idBit == complBit && !IdBit(r.0, pos) then pos else nd
  {
    if idBit != complBit then (SetBit(id, pos, idBit), nd)
    else if pos == ld then (SetBit(id, pos, true), nd)
    else if pos > ld then (SetBit(id, pos, false), pos)
    else if !IdBit(id, pos) then (id, pos)
    else (id, nd)
  }

  datatype PassEnd = Aborted(id: Id) | Finished(id: Id, deviation: int)

  /**
   * The search from bit `pos` on, with `active` the devices still taking part:
   * it aborts when both reads give 1 (no device answered), otherwise it
   * resolves the bit, drops the devices that disagree, and goes on.
   */
  function Pass(active: set<Id>, pos: int, ld: int, id: Id, nd: int): PassEnd
    requires 0 <= pos <= 64
    decreases 64 - pos
  {
    if pos == 64 then Finished(id, nd)
    else
      var b := AllOne(active, pos);
      var c := AllZero(active, pos);
      if b && c then Aborted(id)
      else
        var (id', nd') := Resolve(pos, ld, id, nd, b, c);
        Pass(Filter(active, pos, IdBit(id', pos)), pos + 1, ld, id', nd')
  }

  /** One position of a pass that does not abort, unfolded. */
  lemma PassUnfold(active: set<Id>, pos: int, ld: int, id: Id, nd: int, id': Id, nd': int)
    requires 0 <= pos < 64 && !(AllOne(active, pos) && AllZero(active, pos))
    requires (id', nd') == Resolve(pos, ld, id, nd, AllOne(active, pos), AllZero(active, pos))
    ensures Pass(active, pos, ld, id, nd) == Pass(Filter(active, pos, IdBit(id', pos)), pos + 1, ld, id', nd')
  {
  }

  /**
   * w1_search_rom on a bus holding `devices`: FAILED without a presence
   * pulse (the state is untouched) or when the pass aborts (the id keeps the
   * bits written so far); otherwise the new state, and DONE exactly when no
   * new deviation was recorded.
   */
  function Search(devices: set<Id>, c: Cursor): (SearchResult, Cursor)
  {
    if devices == {} then (Failed, c)
    else
      match Pass(devices, 0, c.lastDeviation, c.deviceId, -1)
      case Aborted(id) => (Failed, c.(deviceId := id))
      case Finished(id, nd) => (if nd == -1 then Done else MoreAvail, Cursor(nd, id))
  }

  // ---------------------------------------------------------------------
  // The order the search follows, and the state it keeps.

  /** x comes before y: at the first bit where they differ, x has 0 and y has 1. */
  ghost predicate Less(x: Id, y: Id)
  {
    exists p :: 0 <= p < 64 && Agree(x, y, p) && !IdBit(x, p) && IdBit(y, p)
  }

  /** The devices whose first n bits are those of x. */
  ghost function Prefix(devices: set<Id>, x: Id, n: int): set<Id>
  {
    set d | d in devices && Agree(x, d, n)
  }

  /** At bit p, x has 0 and some device sharing x's first p bits has 1: a device after x branches off here. */
  ghost predicate Branch(devices: set<Id>, x: Id, p: int)
    requires 0 <= p < 64
  {
    !IdBit(x, p) && exists d :: d in devices && Agree(x, d, p) && IdBit(d, p)
  }

  /** The highest branch position of x below n, or -1. */
  ghost function MaxBranch(devices: set<Id>, x: Id, n: int): (r: int)
    requires 0 <= n <= 64
    ensures -1 <= r < n
  {
    if n == 0 then -1 else if Branch(devices, x, n - 1) then n - 1 else MaxBranch(devices, x, n - 1)
  }

  /** The devices after x. */
  ghost function Above(devices: set<Id>, x: Id): set<Id>
  {
    set d | d in devices && Less(x, d)
  }

  /** The state a search leaves: the id of a device, and as last deviation its highest branch. */
  ghost predicate Valid(devices: set<Id>, c: Cursor)
  {
    c.deviceId in devices && c.lastDeviation == MaxBranch(devices, c.deviceId, 64)
  }

  // ---------------------------------------------------------------------
  // Facts about the order.

  lemma AgreeFrozen(x: Id, y: Id, d: Id, p: int, n: int)
    requires Agree(x, y, n) && p <= n
    ensures Agree(x, d, p) == Agree(y, d, p)
  {
  }

  /** Two different ids differ at a first bit. */
  lemma {:induction false} FirstDiff(x: Id, y: Id, n: int) returns (p: int)
    requires 0 <= n <= 64 && Agree(x, y, n) && x != y
    ensures n <= p < 64 && Agree(x, y, p) && IdBit(x, p) != IdBit(y, p)
    decreases 64 - n
  {
    if n == 64 {
      IdExt(x, y);
    } else if IdBit(x, n) != IdBit(y, n) {
      p := n;
    } else {
      p := FirstDiff(x, y, n + 1);
    }
  }

  lemma LessTotal(x: Id, y: Id)
    ensures x == y || Less(x, y) || Less(y, x)
  {
    if x != y {
      var p := FirstDiff(x, y, 0);
      if IdBit(x, p) {
        assert Agree(y, x, p);
      }
    }
  }

  lemma LessAsymmetric(x: Id, y: Id)
    ensures Less(x, y) ==> !Less(y, x)
  {
    if Less(x, y) {
      var p :| 0 <= p < 64 && Agree(x, y, p) && !IdBit(x, p) && IdBit(y, p);
      forall q | 0 <= q < 64 && Agree(y, x, q)
        ensures !(!IdBit(y, q) && IdBit(x, q))
      {
        if q < p {
          assert IdBit(x, q) == IdBit(y, q);
        }
      }
    }
  }

  lemma LessTransitive(x: Id, y: Id, z: Id)
    requires Less(x, y) && Less(y, z)
    ensures Less(x, z)
  {
    var p :| 0 <= p < 64 && Agree(x, y, p) && !IdBit(x, p) && IdBit(y, p);
    var q :| 0 <= q < 64 && Agree(y, z, q) && !IdBit(y, q) && IdBit(z, q);
    if p < q {
      assert IdBit(z, p) == IdBit(y, p);
      assert Agree(x, z, p);
    } else {
      assert q < p;
      assert IdBit(x, q) == IdBit(y, q);
      assert Agree(x, z, q);
    }
  }

  lemma {:induction false} MaxBranchIsBranch(devices: set<Id>, x: Id, n: int)
    requires 0 <= n <= 64 && MaxBranch(devices, x, n) >= 0
    ensures Branch(devices, x, MaxBranch(devices, x, n))
  {
    if !Branch(devices, x, n - 1) {
      MaxBranchIsBranch(devices, x, n - 1);
    }
  }

  lemma {:induction false} MaxBranchIsMax(devices: set<Id>, x: Id, n: int, p: int)
    requires 0 <= p < n <= 64 && Branch(devices, x, p)
    ensures p <= MaxBranch(devices, x, n)
  {
    if p < n - 1 && !Branch(devices, x, n - 1) {
      MaxBranchIsMax(devices, x, n - 1, p);
    }
  }

  /** MaxBranch only looks at the first n bits of x. */
  lemma {:induction false} MaxBranchFrozen(devices: set<Id>, x: Id, y: Id, n: int)
    requires 0 <= n <= 64 && Agree(x, y, n)
    ensures MaxBranch(devices, x, n) == MaxBranch(devices, y, n)
  {
    if n > 0 {
      MaxBranchFrozen(devices, x, y, n - 1);
      forall d | d in devices
        ensures Agree(x, d, n - 1) == Agree(y, d, n - 1)
      {
        AgreeFrozen(x, y, d, n - 1, n);
      }
      assert Branch(devices, x, n - 1) == Branch(devices, y, n - 1);
    }
  }

  /** A branch of x at p is exactly a device after x that leaves x at p. */
  lemma BranchAbove(devices: set<Id>, x: Id, p: int, d: Id)
    requires 0 <= p < 64 && d in devices && Agree(x, d, p) && !IdBit(x, p) && IdBit(d, p)
    ensures Branch(devices, x, p) && Less(x, d)
  {
  }

  /** x is the last device exactly when it has no branch. */
  lemma LastIffNoBranch(devices: set<Id>, x: Id)
    ensures MaxBranch(devices, x, 64) == -1 <==> Above(devices, x) == {}
  {
    if MaxBranch(devices, x, 64) == -1 {
      forall d | d in devices
        ensures !Less(x, d)
      {
        if Less(x, d) {
          var p :| 0 <= p < 64 && Agree(x, d, p) && !IdBit(x, p) && IdBit(d, p);
          MaxBranchIsMax(devices, x, 64, p);
        }
      }
    } else {
      var p := MaxBranch(devices, x, 64);
      MaxBranchIsBranch(devices, x, 64);
      var d :| d in devices && Agree(x, d, p) && IdBit(d, p);
      assert d in Above(devices, x);
    }
  }

  // ---------------------------------------------------------------------
  // The pass, bit by bit.

  /** Below bit n (and below ld), y leaves the previous id x only where every candidate device forces it. */
  ghost predicate FollowsBelow(devices: set<Id>, x: Id, y: Id, n: int)
  {
    forall p, d :: 0 <= p < n && p < 64 && d in devices && Agree(y, d, p) && IdBit(y, p) != IdBit(x, p) ==>
      IdBit(d, p) == IdBit(y, p)
  }

  /** At the last deviation ld, y takes 1 unless no candidate device has 1. */
  ghost predicate TakesOne(devices: set<Id>, y: Id, ld: int)
  {
    0 <= ld < 64 ==> IdBit(y, ld) || forall d :: d in devices && Agree(y, d, ld) ==> !IdBit(d, ld)
  }

  /** Above ld and below n, y takes 1 only where every candidate device has 1. */
  ghost predicate MinimalAbove(devices: set<Id>, y: Id, ld: int, n: int)
  {
    forall p, d :: ld < p < n && 0 <= p < 64 && d in devices && Agree(y, d, p) && IdBit(y, p) ==> IdBit(d, p)
  }

  /** What holds when the pass that started from id x with last deviation ld reaches bit pos. */
  ghost predicate PassInv(devices: set<Id>, x: Id, ld: int, active: set<Id>, pos: int, id: Id, nd: int)
  {
    0 <= pos <= 64 &&
    active == Prefix(devices, id, pos) && active != {} &&
    (forall q :: pos <= q < 64 ==> IdBit(id, q) == IdBit(x, q)) &&
    nd == MaxBranch(devices, id, pos) &&
    FollowsBelow(devices, x, id, if ld < pos then ld else pos) &&
    (ld < pos ==> TakesOne(devices, id, ld)) &&
    MinimalAbove(devices, id, ld, pos)
  }

  /** What the pass establishes about the id y it finds and the deviation nd it records. */
  ghost predicate PassOutcome(devices: set<Id>, x: Id, ld: int, y: Id, nd: int)
  {
    y in devices && nd == MaxBranch(devices, y, 64) &&
    FollowsBelow(devices, x, y, ld) && TakesOne(devices, y, ld) && MinimalAbove(devices, y, ld, 64)
  }

  lemma PassStart(devices: set<Id>, x: Id, ld: int)
    requires devices != {}
    ensures PassInv(devices, x, ld, devices, 0, x, -1)
  {
    assert Prefix(devices, x, 0) == devices;
  }

  /** One bit of the pass keeps the invariant (and never aborts while a device takes part). */
  lemma PassStep(devices: set<Id>, x: Id, ld: int, active: set<Id>, pos: int, id: Id, nd: int)
    requires PassInv(devices, x, ld, active, pos, id, nd) && pos < 64
    ensures !(AllOne(active, pos) && AllZero(active, pos))
    ensures var r := Resolve(pos, ld, id, nd, AllOne(active, pos), AllZero(active, pos));
      PassInv(devices, x, ld, Filter(active, pos, IdBit(r.0, pos)), pos + 1, r.0, r.1)
  {
    StepActive(devices, x, ld, active, pos, id, nd);
    StepDeviation(devices, x, ld, active, pos, id, nd);
    StepFollows(devices, x, ld, active, pos, id, nd);
    StepTakesOne(devices, x, ld, active, pos, id, nd);
    StepMinimal(devices, x, ld, active, pos, id, nd);
  }

  /** The devices still taking part are those sharing the first pos+1 bits of the new id, and there is one. */
  lemma StepActive(devices: set<Id>, x: Id, ld: int, active: set<Id>, pos: int, id: Id, nd: int)
    requires PassInv(devices, x, ld, active, pos, id, nd) && pos < 64
    ensures !(AllOne(active, pos) && AllZero(active, pos))
    ensures var r := Resolve(pos, ld, id, nd, AllOne(active, pos), AllZero(active, pos));
      var active' := Filter(active, pos, IdBit(r.0, pos));
      active' == Prefix(devices, r.0, pos + 1) && active' != {}
  {
    var b, c := AllOne(active, pos), AllZero(active, pos);
    var e :| e in active;
    assert !(b && c);
    var (id', nd') := Resolve(pos, ld, id, nd, b, c);
    var v := IdBit(id', pos);
    var active' := Filter(active, pos, v);
    assert Agree(id, id', pos);
    forall d
      ensures d in active' <==> d in Prefix(devices, id', pos + 1)
    {
      AgreeFrozen(id, id', d, pos, pos);
    }
    if b {
      assert v && e in active';
    } else if c {
      assert !v && e in active';
    } else {
      var d1 :| d1 in active && IdBit(d1, pos);
      var d0 :| d0 in active && !IdBit(d0, pos);
      assert d1 in active' || d0 in active';
    }
  }

  /** The recorded deviation is the highest branch so far. */
  lemma StepDeviation(devices: set<Id>, x: Id, ld: int, active: set<Id>, pos: int, id: Id, nd: int)
    requires PassInv(devices, x, ld, active, pos, id, nd) && pos < 64
    ensures !(AllOne(active, pos) && AllZero(active, pos))
    ensures var r := Resolve(pos, ld, id, nd, AllOne(active, pos), AllZero(active, pos));
      r.1 == MaxBranch(devices, r.0, pos + 1)
  {
    var b, c := AllOne(active, pos), AllZero(active, pos);
    var e :| e in active;
    assert !(b && c);
    var (id', nd') := Resolve(pos, ld, id, nd, b, c);
    var v := IdBit(id', pos);
    var active' := Filter(active, pos, v);
    assert Agree(id, id', pos);
    MaxBranchFrozen(devices, id, id', pos);
    forall d | d in devices
      ensures Agree(id', d, pos) == (d in active)
    {
      AgreeFrozen(id, id', d, pos, pos);
    }
    assert Branch(devices, id', pos) == (!v && !c);
  }

  /** Below the last deviation the old path is followed unless forced. */
  lemma StepFollows(devices: set<Id>, x: Id, ld: int, active: set<Id>, pos: int, id: Id, nd: int)
    requires PassInv(devices, x, ld, active, pos, id, nd) && pos < 64
    ensures !(AllOne(active, pos) && AllZero(active, pos))
    ensures var r := Resolve(pos, ld, id, nd, AllOne(active, pos), AllZero(active, pos));
      FollowsBelow(devices, x, r.0, if ld < pos + 1 then ld else pos + 1)
  {
    var b, c := AllOne(active, pos), AllZero(active, pos);
    var e :| e in active;
    assert !(b && c);
    var (id', nd') := Resolve(pos, ld, id, nd, b, c);
    var v := IdBit(id', pos);
    var active' := Filter(active, pos, v);
    assert Agree(id, id', pos);
    forall p, d | 0 <= p < (if ld < pos + 1 then ld else pos + 1) && p < 64 && d in devices &&
                  Agree(id', d, p) && IdBit(id', p) != IdBit(x, p)
      ensures IdBit(d, p) == IdBit(id', p)
    {
      AgreeFrozen(id, id', d, p, pos);
      if p == pos {
        assert d in active;
      }
    }
  }

  /** At the last deviation the 1 path is taken when there is one. */
  lemma StepTakesOne(devices: set<Id>, x: Id, ld: int, active: set<Id>, pos: int, id: Id, nd: int)
    requires PassInv(devices, x, ld, active, pos, id, nd) && pos < 64
    ensures !(AllOne(active, pos) && AllZero(active, pos))
    ensures var r := Resolve(pos, ld, id, nd, AllOne(active, pos), AllZero(active, pos));
      ld < pos + 1 ==> TakesOne(devices, r.0, ld)
  {
    var b, c := AllOne(active, pos), AllZero(active, pos);
    var e :| e in active;
    assert !(b && c);
    var (id', nd') := Resolve(pos, ld, id, nd, b, c);
    var v := IdBit(id', pos);
    var active' := Filter(active, pos, v);
    assert Agree(id, id', pos);
    if ld < pos + 1 && 0 <= ld {
      forall d | d in devices && Agree(id', d, ld)
        ensures Agree(id, d, ld)
      {
        AgreeFrozen(id, id', d, ld, pos);
      }
    }
  }

  /** Above the last deviation the 0 path is taken when there is one. */
  lemma StepMinimal(devices: set<Id>, x: Id, ld: int, active: set<Id>, pos: int, id: Id, nd: int)
    requires PassInv(devices, x, ld, active, pos, id, nd) && pos < 64
    ensures !(AllOne(active, pos) && AllZero(active, pos))
    ensures var r := Resolve(pos, ld, id, nd, AllOne(active, pos), AllZero(active, pos));
      MinimalAbove(devices, r.0, ld, pos + 1)
  {
    var b, c := AllOne(active, pos), AllZero(active, pos);
    var e :| e in active;
    assert !(b && c);
    var (id', nd') := Resolve(pos, ld, id, nd, b, c);
    var v := IdBit(id', pos);
    var active' := Filter(active, pos, v);
    assert Agree(id, id', pos);
    forall p, d | ld < p < pos + 1 && 0 <= p < 64 && d in devices && Agree(id', d, p) && IdBit(id', p)
      ensures IdBit(d, p)
    {
      AgreeFrozen(id, id', d, p, pos);
      if p == pos {
        assert d in active;
      }
    }
  }

  lemma {:induction false} PassFrom(devices: set<Id>, x: Id, ld: int, active: set<Id>, pos: int, id: Id, nd: int)
    requires PassInv(devices, x, ld, active, pos, id, nd)
    ensures Pass(active, pos, ld, id, nd).Finished?
    ensures PassOutcome(devices, x, ld, Pass(active, pos, ld, id, nd).id, Pass(active, pos, ld, id, nd).deviation)
    decreases 64 - pos
  {
    if pos == 64 {
      var d :| d in active;
      IdExt(id, d);
    } else {
      PassStep(devices, x, ld, active, pos, id, nd);
      var b, c := AllOne(active, pos), AllZero(active, pos);
      var r := Resolve(pos, ld, id, nd, b, c);
      PassFrom(devices, x, ld, Filter(active, pos, IdBit(r.0, pos)), pos + 1, r.0, r.1);
    }
  }

  // ---------------------------------------------------------------------
  // What one search finds.

  /** On a bus with devices the search never fails, and its result is the outcome of a whole pass. */
  lemma SearchFinds(devices: set<Id>, c: Cursor)
    requires devices != {}
    ensures Search(devices, c).0 != Failed
    ensures PassOutcome(devices, c.deviceId, c.lastDeviation,
                        Search(devices, c).1.deviceId, Search(devices, c).1.lastDeviation)
    ensures Search(devices, c).0 == Done <==> Search(devices, c).1.lastDeviation == -1
  {
    PassStart(devices, c.deviceId, c.lastDeviation);
    PassFrom(devices, c.deviceId, c.lastDeviation, devices, 0, c.deviceId, -1);
  }

  /** From a state with no last deviation (the initial one), the search finds the first device. */
  lemma FirstSearch(devices: set<Id>, x: Id)
    requires devices != {}
    ensures var (r, c') := Search(devices, Cursor(-1, x));
      r != Failed && Valid(devices, c') &&
      (forall d :: d in devices && d != c'.deviceId ==> Less(c'.deviceId, d)) &&
      (r == Done <==> Above(devices, c'.deviceId) == {})
  {
    var (r, c') := Search(devices, Cursor(-1, x));
    SearchFinds(devices, Cursor(-1, x));
    var y := c'.deviceId;
    forall d | d in devices && d != y
      ensures Less(y, d)
    {
      var p := FirstDiff(y, d, 0);
    }
    LastIffNoBranch(devices, y);
  }

  lemma {:induction false} FollowedBelow(devices: set<Id>, x: Id, y: Id, ld: int, n: int)
    requires x in devices && FollowsBelow(devices, x, y, ld) && 0 <= n <= 64 && n <= ld
    ensures Agree(y, x, n)
  {
    if n > 0 {
      FollowedBelow(devices, x, y, ld, n - 1);
    }
  }

  /**
   * From the state a search leaves, with a last deviation, the next search
   * finds the next device: after the previous one, with every other device
   * after the previous one also after it.
   */
  lemma NextSearch(devices: set<Id>, c: Cursor)
    requires Valid(devices, c) && c.lastDeviation >= 0
    ensures var (r, c') := Search(devices, c);
      r != Failed && Valid(devices, c') &&
      Less(c.deviceId, c'.deviceId) &&
      (forall d :: d in devices && Less(c.deviceId, d) ==> d == c'.deviceId || Less(c'.deviceId, d)) &&
      (r == Done <==> Above(devices, c'.deviceId) == {})
  {
    var (r, c') := Search(devices, c);
    SearchFinds(devices, c);
    var x, y, ld := c.deviceId, c'.deviceId, c.lastDeviation;
    LeavesAtDeviation(devices, x, y, ld);
    forall d | d in devices && Less(x, d)
      ensures d == y || Less(y, d)
    {
      NothingBetween(devices, x, y, ld, d);
    }
    LastIffNoBranch(devices, y);
  }

  /** The id found after x follows x up to its last deviation and takes the 1 path there, so it comes after x. */
  lemma LeavesAtDeviation(devices: set<Id>, x: Id, y: Id, ld: int)
    requires x in devices && 0 <= ld && ld == MaxBranch(devices, x, 64)
    requires FollowsBelow(devices, x, y, ld) && TakesOne(devices, y, ld)
    ensures Agree(x, y, ld) && !IdBit(x, ld) && IdBit(y, ld) && Less(x, y)
  {
    FollowedBelow(devices, x, y, ld, ld);
    MaxBranchIsBranch(devices, x, 64);
    var e :| e in devices && Agree(x, e, ld) && IdBit(e, ld);
    AgreeFrozen(x, y, e, ld, ld);
    assert IdBit(y, ld);
    assert Agree(x, y, ld);
  }

  /** No device lies strictly between x and the id found after it. */
  lemma NothingBetween(devices: set<Id>, x: Id, y: Id, ld: int, d: Id)
    requires x in devices && 0 <= ld && ld == MaxBranch(devices, x, 64)
    requires Agree(x, y, ld) && !IdBit(x, ld) && IdBit(y, ld) && MinimalAbove(devices, y, ld, 64)
    requires d in devices && Less(x, d)
    ensures d == y || Less(y, d)
  {
    var p :| 0 <= p < 64 && Agree(x, d, p) && !IdBit(x, p) && IdBit(d, p);
    BranchAbove(devices, x, p, d);
    MaxBranchIsMax(devices, x, 64, p);
    if p < ld {
      assert Agree(y, d, p) && !IdBit(y, p);
      assert Less(y, d);
    } else {
      assert p == ld;
      forall q | 0 <= q < 64 && Agree(d, y, q)
        ensures !(!IdBit(d, q) && IdBit(y, q))
      {
        if q > ld {
          assert Agree(y, d, q);
        }
      }
      assert !Less(d, y);
      LessTotal(y, d);
    }
  }

  /** The devices after x are its successor y and the devices after y. */
  lemma AboveSuccessor(devices: set<Id>, x: Id, y: Id)
    requires y in devices && Less(x, y)
    requires forall d :: d in devices && Less(x, d) ==> d == y || Less(y, d)
    ensures Above(devices, x) == {y} + Above(devices, y)
    ensures y !in Above(devices, y)
    ensures |Above(devices, y)| == |Above(devices, x)| - 1
  {
    forall d | d in Above(devices, y)
      ensures d in Above(devices, x)
    {
      LessTransitive(x, y, d);
    }
    LessAsymmetric(y, y);
  }

  // ---------------------------------------------------------------------
  // Repeated searches.

  datatype Outcome = Outcome(result: SearchResult, id: Id)

  /** The results and ids of k calls of the search in a row, each continuing from the state the previous one left. */
  function Searches(devices: set<Id>, c: Cursor, k: nat): (o: seq<Outcome>)
    ensures |o| == k
    decreases k
  {
    if k == 0 then []
    else
      var next := Search(devices, c);
      [Outcome(next.0, next.1.deviceId)] + Searches(devices, next.1, k - 1)
  }

  function IdsOf(o: seq<Outcome>): set<Id>
  {
    set i | 0 <= i < |o| :: o[i].id
  }

  /** MORE_AVAIL on every call but the last, DONE on the last. */
  ghost predicate EndsDone(o: seq<Outcome>)
  {
    |o| > 0 && (forall i :: 0 <= i < |o| - 1 ==> o[i].result == MoreAvail) && o[|o| - 1].result == Done
  }

  /** The ids come in strictly increasing order (so none repeats). */
  ghost predicate Ascending(o: seq<Outcome>)
  {
    forall i, j :: 0 <= i < j < |o| ==> Less(o[i].id, o[j].id)
  }

  /** Putting a device before a list of the devices after it, in order, keeps it in order. */
  lemma Prepend(y: Id, r: SearchResult, rest: seq<Outcome>, after: set<Id>)
    requires Ascending(rest) && IdsOf(rest) == after
    requires forall d :: d in after ==> Less(y, d)
    requires if rest == [] then r == Done else r == MoreAvail && EndsDone(rest)
    ensures EndsDone([Outcome(r, y)] + rest)
    ensures Ascending([Outcome(r, y)] + rest)
    ensures IdsOf([Outcome(r, y)] + rest) == {y} + after
  {
    var o := [Outcome(r, y)] + rest;
    forall i | 0 < i < |o|
      ensures o[i] == rest[i - 1]
    {
    }
    forall j | 0 < j < |o|
      ensures Less(y, o[j].id)
    {
      assert rest[j - 1].id in IdsOf(rest);
    }
    forall d
      ensures d in IdsOf(o) <==> d == y || d in IdsOf(rest)
    {
      assert o[0].id == y;
      if d in IdsOf(rest) {
        var i :| 0 <= i < |rest| && rest[i].id == d;
        assert o[i + 1].id == d;
      }
      if d in IdsOf(o) {
        var i :| 0 <= i < |o| && o[i].id == d;
        if i > 0 {
          assert rest[i - 1].id == d;
        }
      }
    }
  }

  /** The searches after a valid state list the devices after it in order, DONE with the last. */
  lemma {:induction false} EnumerateFrom(devices: set<Id>, c: Cursor, k: nat)
    requires Valid(devices, c) && c.lastDeviation >= 0 && k == |Above(devices, c.deviceId)|
    decreases k
    ensures var o := Searches(devices, c, k);
      EndsDone(o) && Ascending(o) && IdsOf(o) == Above(devices, c.deviceId)
  {
    var next := Search(devices, c);
    var x, y := c.deviceId, next.1.deviceId;
    NextSearch(devices, c);
    AboveSuccessor(devices, x, y);
    var m := |Above(devices, y)|;
    SearchesStep(devices, c, k, m, next.0, next.1);
    var rest := Searches(devices, next.1, m);
    if next.0 == Done {
      assert rest == [];
    } else {
      EnumerateFrom(devices, next.1, m);
    }
    Prepend(y, next.0, rest, Above(devices, y));
  }

  /**
   * Called once per device from the initial state, the search lists every
   * device exactly once, in increasing order, with MORE_AVAIL before the
   * last call and DONE on it.
   */
  lemma SearchEnumerates(devices: set<Id>)
    requires devices != {}
    ensures var o := Searches(devices, INITIAL_SEARCH_STATE, |devices|);
      EndsDone(o) && Ascending(o) && IdsOf(o) == devices
  {
    EnumerateAll(devices, INITIAL_SEARCH_STATE);
  }

  /** The same from any state whose last deviation is -1: the id left in it does not matter. */
  lemma EnumerateAll(devices: set<Id>, c: Cursor)
    requires devices != {} && c.lastDeviation == -1
    ensures var o := Searches(devices, c, |devices|);
      EndsDone(o) && Ascending(o) && IdsOf(o) == devices
  {
    var n := |devices|;
    var (r, next) := Search(devices, c);
    var y := next.deviceId;
    assert c == Cursor(-1, c.deviceId);
    FirstSearch(devices, c.deviceId);
    FirstIsLeast(devices, y);
    var m := |Above(devices, y)|;
    SearchesStep(devices, c, n, m, r, next);
    var rest := Searches(devices, next, m);
    if r == Done {
      assert rest == [];
    } else {
      EnumerateFrom(devices, next, m);
    }
    Prepend(y, r, rest, Above(devices, y));
  }

  /** The device before all others is followed by all others. */
  lemma FirstIsLeast(devices: set<Id>, y: Id)
    requires y in devices && forall d :: d in devices && d != y ==> Less(y, d)
    ensures devices == {y} + Above(devices, y) && y !in Above(devices, y)
    ensures |Above(devices, y)| == |devices| - 1
  {
    LessAsymmetric(y, y);
    assert devices == {y} + Above(devices, y);
  }

  /** One search, then the k' = k - 1 that follow it. */
  lemma {:induction false} SearchesStep(devices: set<Id>, c: Cursor, k: nat, k': nat, r: SearchResult, next: Cursor)
    requires k > 0 && k' == k - 1 && Search(devices, c) == (r, next)
    ensures Searches(devices, c, k) == [Outcome(r, next.deviceId)] + Searches(devices, next, k')
  {
  }

  // ---------------------------------------------------------------------
  // w1_find_devices.

  /**
   * The loop of w1_find_devices from state c with `room` free buffer slots:
   * the ids it stores, and whether a search failed (the count returned is
   * then 0). It stops after DONE or when the buffer is full.
   */
  function Scan(devices: set<Id>, c: Cursor, room: nat): (r: (seq<Id>, bool))
    ensures |r.0| <= room
    decreases room
  {
    if room == 0 then ([], false)
    else
      var next := Search(devices, c);
      if next.0 == Failed then ([], true)
      else if next.0 == Done then ([next.1.deviceId], false)
      else
        var rest := Scan(devices, next.1, room - 1);
        ([next.1.deviceId] + rest.0, rest.1)
  }

  /** The ids come in strictly increasing order. */
  ghost predicate Sorted(ids: seq<Id>)
  {
    forall i, j :: 0 <= i < j < |ids| ==> Less(ids[i], ids[j])
  }

  /** The ids listed are `count` devices of `pool`, in order, and the first of them: every device left out comes after them all; a count of |pool| lists them all. */
  ghost predicate Lists(ids: seq<Id>, pool: set<Id>, count: int)
  {
    |ids| == count && Sorted(ids) &&
    (forall i :: 0 <= i < |ids| ==> ids[i] in pool) &&
    (forall d, i :: d in pool && d !in ids && 0 <= i < |ids| ==> Less(ids[i], d)) &&
    (count == |pool| ==> forall d :: d in pool ==> d in ids)
  }


  lemma PrependIds(y: Id, rest: seq<Id>, after: set<Id>, room: nat)
    requires room > 0 && Lists(rest, after, Min(room - 1, |after|))
    requires y !in after && forall d :: d in after ==> Less(y, d)
    ensures Lists([y] + rest, {y} + after, Min(room, |after| + 1))
  {
    var ids := [y] + rest;
    PrependSorted(y, rest, after);
    assert forall i :: 0 <= i < |ids| ==> ids[i] in {y} + after by {
      forall i | 0 <= i < |ids|
        ensures ids[i] in {y} + after
      {
        if i > 0 {
          assert ids[i] == rest[i - 1];
        }
      }
    }
    assert forall d, i :: d in {y} + after && d !in ids && 0 <= i < |ids| ==> Less(ids[i], d) by {
      forall d, i | d in {y} + after && d !in ids && 0 <= i < |ids|
        ensures Less(ids[i], d)
      {
        assert d in after && d !in rest;
        if i > 0 {
          assert ids[i] == rest[i - 1];
        }
      }
    }
    assert Min(room, |after| + 1) == |{y} + after| ==> forall d :: d in {y} + after ==> d in ids by {
      if Min(room, |after| + 1) == |after| + 1 {
        forall d | d in {y} + after
          ensures d in ids
        {
          if d != y {
            assert d in rest;
          }
        }
      }
    }
  }

  /** A smallest id put in front of sorted ids keeps them sorted. */
  lemma PrependSorted(y: Id, rest: seq<Id>, after: set<Id>)
    requires Sorted(rest) && (forall i :: 0 <= i < |rest| ==> rest[i] in after)
    requires forall d :: d in after ==> Less(y, d)
    ensures Sorted([y] + rest)
  {
    var ids := [y] + rest;
    forall i, j | 0 <= i < j < |ids|
      ensures Less(ids[i], ids[j])
    {
      assert ids[j] == rest[j - 1];
      if i > 0 {
        assert ids[i] == rest[i - 1];
      }
    }
  }

  // One round of the loop, one lemma per result of the search; room' is the room left after it.

  lemma {:induction false} ScanFailed(devices: set<Id>, c: Cursor, room: nat)
    requires room > 0 && Search(devices, c).0 == Failed
    ensures Scan(devices, c, room) == ([], true)
  {
  }

  lemma {:induction false} ScanDone(devices: set<Id>, c: Cursor, room: nat, next: Cursor)
    requires room > 0 && Search(devices, c) == (Done, next)
    ensures Scan(devices, c, room) == ([next.deviceId], false)
  {
  }

  lemma {:induction false} ScanMore(devices: set<Id>, c: Cursor, room: nat, next: Cursor, room': nat)
    requires room > 0 && Search(devices, c) == (MoreAvail, next) && room' == room - 1
    ensures Scan(devices, c, room) == ([next.deviceId] + Scan(devices, next, room').0, Scan(devices, next, room').1)
  {
  }

  /**
   * The same loop with the ids already stored in `acc`, the shape the loop
   * itself has: each round either stops or goes on with one more id stored.
   */
  function ScanAcc(devices: set<Id>, c: Cursor, room: nat, acc: seq<Id>): (r: (seq<Id>, bool))
    decreases room
  {
    if room == 0 then (acc, false)
    else
      var next := Search(devices, c);
      if next.0 == Failed then (acc, true)
      else if next.0 == Done then (acc + [next.1.deviceId], false)
      else ScanAcc(devices, next.1, room - 1, acc + [next.1.deviceId])
  }

  /** The loop with `acc` stored so far ends with `acc` followed by what Scan stores. */
  lemma {:induction false} ScanAccIs(devices: set<Id>, c: Cursor, room: nat, acc: seq<Id>)
    ensures var r := Scan(devices, c, room);
      ScanAcc(devices, c, room, acc) == (acc + r.0, r.1)
    decreases room
  {
    if room == 0 {
      assert acc + [] == acc;
    } else {
      var (r, next) := Search(devices, c);
      if r == Failed {
        ScanAccFailed(devices, c, room, acc);
        ScanFailed(devices, c, room);
        assert acc + [] == acc;
      } else if r == Done {
        ScanAccDone(devices, c, room, acc, next, acc + [next.deviceId]);
        ScanDone(devices, c, room, next);
      } else {
        var room', acc' := room - 1, acc + [next.deviceId];
        ScanAccIs(devices, next, room', acc');
        ScanAccMore(devices, c, room, acc, next, room', acc');
        ScanMore(devices, c, room, next, room');
        StoreOneMore(acc, next.deviceId, Scan(devices, next, room').0);
      }
    }
  }

  lemma StoreOneMore(acc: seq<Id>, y: Id, rest: seq<Id>)
    ensures (acc + [y]) + rest == acc + ([y] + rest)
  {
  }

  // The same round for the loop with the ids stored so far; acc' is acc with one more id.

  lemma {:induction false} ScanAccFailed(devices: set<Id>, c: Cursor, room: nat, acc: seq<Id>)
    requires room > 0 && Search(devices, c).0 == Failed
    ensures ScanAcc(devices, c, room, acc) == (acc, true)
  {
  }

  lemma {:induction false} ScanAccDone(devices: set<Id>, c: Cursor, room: nat, acc: seq<Id>, next: Cursor, acc': seq<Id>)
    requires room > 0 && Search(devices, c) == (Done, next) && acc' == acc + [next.deviceId]
    ensures ScanAcc(devices, c, room, acc) == (acc', false)
  {
  }

  lemma {:induction false} ScanAccMore(devices: set<Id>, c: Cursor, room: nat, acc: seq<Id>, next: Cursor,
                                       room': nat, acc': seq<Id>)
    requires room > 0 && Search(devices, c) == (MoreAvail, next)
    requires room' == room - 1 && acc' == acc + [next.deviceId]
    ensures ScanAcc(devices, c, room, acc) == ScanAcc(devices, next, room', acc')
  {
  }

  /** After a valid state, the loop stores the devices after it, in order, as many as fit. */
  lemma {:induction false} ScanFrom(devices: set<Id>, c: Cursor, room: nat)
    requires Valid(devices, c) && c.lastDeviation >= 0
    ensures !Scan(devices, c, room).1
    ensures Lists(Scan(devices, c, room).0, Above(devices, c.deviceId), Min(room, |Above(devices, c.deviceId)|))
    decreases room
  {
    if room > 0 {
      var next := Search(devices, c);
      var x, y := c.deviceId, next.1.deviceId;
      assert next.0 != Failed && Valid(devices, next.1) && (next.0 == Done <==> Above(devices, y) == {}) &&
        (next.0 == Done <==> next.1.lastDeviation == -1) &&
        Above(devices, x) == {y} + Above(devices, y) && y !in Above(devices, y) &&
        |Above(devices, y)| == |Above(devices, x)| - 1 by {
        SearchFinds(devices, c);
        NextSearch(devices, c);
        AboveSuccessor(devices, x, y);
      }
      var room' := room - 1;
      if next.0 == Done {
        ScanDone(devices, c, room, next.1);
        PrependIds(y, [], Above(devices, y), room);
        assert [y] + [] == [y];
      } else {
        ScanMore(devices, c, room, next.1, room');
        var rest := Scan(devices, next.1, room');
        ScanFrom(devices, next.1, room');
        PrependIds(y, rest.0, Above(devices, y), room);
      }
    }
  }

  /**
   * w1_find_devices with a buffer of `bufSize` ids: with no device on the
   * bus it reports a failure; otherwise it stores min(bufSize, number of
   * devices) distinct device ids, the smallest ones in increasing order, and
   * all of them when the buffer is large enough.
   */
  lemma FindDevicesLists(devices: set<Id>, bufSize: nat)
    ensures devices == {} && bufSize > 0 ==> Scan(devices, INITIAL_SEARCH_STATE, bufSize).1
    ensures devices != {} ==>
      !Scan(devices, INITIAL_SEARCH_STATE, bufSize).1 &&
      Lists(Scan(devices, INITIAL_SEARCH_STATE, bufSize).0, devices, Min(bufSize, |devices|))
  {
    if devices != {} && bufSize > 0 {
      ScanAll(devices, INITIAL_SEARCH_STATE, bufSize);
    }
  }

  lemma ScanAll(devices: set<Id>, c: Cursor, room: nat)
    requires devices != {} && c.lastDeviation == -1 && room > 0
    ensures !Scan(devices, c, room).1 && Lists(Scan(devices, c, room).0, devices, Min(room, |devices|))
  {
    var n := |devices|;
    var next := Search(devices, c);
    var y := next.1.deviceId;
    assert next.0 != Failed && Valid(devices, next.1) && (next.0 == Done <==> Above(devices, y) == {}) &&
      (next.0 == Done <==> next.1.lastDeviation == -1) &&
      devices == {y} + Above(devices, y) && y !in Above(devices, y) && |Above(devices, y)| == n - 1 by {
      SearchFinds(devices, c);
      FirstSearch(devices, c.deviceId);
      LessAsymmetric(y, y);
      assert devices == {y} + Above(devices, y);
    }
    var room' := room - 1;
    if next.0 == Done {
      ScanDone(devices, c, room, next.1);
      PrependIds(y, [], Above(devices, y), room);
      assert [y] + [] == [y];
    } else {
      ScanMore(devices, c, room, next.1, room');
      var rest := Scan(devices, next.1, room');
      ScanFrom(devices, next.1, room');
      PrependIds(y, rest.0, Above(devices, y), room);
    }
  }
}
