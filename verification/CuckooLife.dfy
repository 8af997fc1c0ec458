/**
 The life of an element in the cuckoo cache. It enters as current, becomes old when an epoch ends and
 discardable when the next one does, or at once when it is erased; its flags go with it wherever it is displaced
 to, and an insertion that finds a slot costs nothing but one discardable element.
 */
module CuckooLife {
  import opened CuckooSpec

  datatype Status = Absent | Discardable | Old | Current

  function FlagStatus(discard: bool, epoch: bool): Status {
    if discard then Discardable else if epoch then Current else Old
  }

  // What the cache knows of an element.
  ghost predicate Has(c: Cache, x: Element, status: Status) {
    |c.table| == |c.discard| == |c.epoch| &&
    if status == Absent then x !in c.table
    else exists i | 0 <= i < |c.table| :: c.table[i] == x && FlagStatus(c.discard[i], c.epoch[i]) == status
  }

  lemma {:induction false} LiveIs(discard: seq<bool>, epoch: seq<bool>)
    requires |discard| == |epoch|
    ensures Live(discard, epoch) == |set i | 0 <= i < |discard| && epoch[i] && !discard[i]|
  {
    if discard != [] {
      var n := |discard| - 1;
      LiveIs(discard[..n], epoch[..n]);
      var before := set i | 0 <= i < n && epoch[..n][i] && !discard[..n][i];
      var all := set i | 0 <= i < |discard| && epoch[i] && !discard[i];
      assert all == before + if epoch[n] && !discard[n] then {n} else {};
    }
  }

  /* ----- Erasing and ageing ----- */

  // Erasing an element marks it, and only it; it stays where it is.
  lemma EraseMarks(p: Params, c: Cache, e: Element, x: Element, status: Status)
    requires ParamsOk(p) && Shaped(p, c) && Placed(p, c.table) && e != DEFAULT && x != DEFAULT && Has(c, x, status)
    ensures Has(Erase(p, c, e), x, if x == e && status != Absent then Discardable else status)
    ensures Erase(p, c, e).table == c.table && Erase(p, c, e).epoch == c.epoch
  {
    Found(c.table, p.hashes(e), e);
    var loc, c' := FindElement(c.table, p.hashes(e), e), Erase(p, c, e);
    if status == Absent {
    } else if x == e {
      if loc < 0 { AbsentIsHomeless(p, c.table, e); }
      assert c'.table[loc] == x && FlagStatus(c'.discard[loc], c'.epoch[loc]) == Discardable;
    } else {
      var i :| 0 <= i < |c.table| && c.table[i] == x && FlagStatus(c.discard[i], c.epoch[i]) == status;
      assert i != loc && FlagStatus(c'.discard[i], c'.epoch[i]) == status;
    }
  }

  function Aged(status: Status): Status {
    match status
    case Current => Old
    case Old => Discardable
    case _ => status
  }

  // An epoch ends when the counter has run out and the current epoch is as large as it may be.
  predicate EpochEnds(p: Params, c: Cache)
    requires Shaped(p, c)
  {
    c.counter == 0 && |set i | 0 <= i < p.size && c.epoch[i] && !c.discard[i]| >= p.epochSize
  }

  lemma EpochAges(p: Params, c: Cache, x: Element, status: Status)
    requires Shaped(p, c) && Has(c, x, status)
    ensures Shaped(p, EpochCheck(p, c)) && Has(EpochCheck(p, c), x, if EpochEnds(p, c) then Aged(status) else status)
    ensures EpochCheck(p, c).table == c.table
    ensures !EpochEnds(p, c) ==> EpochCheck(p, c).discard == c.discard && EpochCheck(p, c).epoch == c.epoch
  {
    LiveIs(c.discard, c.epoch);
    hide Live;
    var c1 := EpochCheck(p, c);
    if status != Absent {
      var i :| 0 <= i < |c.table| && c.table[i] == x && FlagStatus(c.discard[i], c.epoch[i]) == status;
      assert c1.table[i] == x;
      assert FlagStatus(c1.discard[i], c1.epoch[i]) == if EpochEnds(p, c) then Aged(status) else status;
    }
  }

  /* ----- Displacing ----- */

  datatype Slot = Slot(e: Element, discard: bool, epoch: bool)

  function Slots(c: Cache): seq<Slot>
    requires |c.table| == |c.discard| == |c.epoch|
  {
    seq(|c.table|, i requires 0 <= i < |c.table| => Slot(c.table[i], c.discard[i], c.epoch[i]))
  }

  lemma SlotsPut(c: Cache, loc: nat, e: Element, epoch: bool)
    requires loc < |c.table| == |c.discard| == |c.epoch|
    ensures Slots(Put(c, loc, e, epoch)) == Slots(c)[loc := Slot(e, false, epoch)]
    ensures !c.discard[loc] ==> Slots(Swap(c, loc, e, epoch)) == Slots(c)[loc := Slot(e, false, epoch)]
  {
  }

  lemma SlotSwapped(s: seq<Slot>, loc: nat, t: Slot)
    requires loc < |s|
    ensures multiset(s[loc := t]) + multiset{s[loc]} == multiset(s) + multiset{t}
  {
    assert s == s[..loc] + [s[loc]] + s[loc + 1..];
    assert s[loc := t] == s[..loc] + [t] + s[loc + 1..];
  }

  // A chain carries flags along: of all slots and the newcomer's, one is lost, a discardable one if a slot was found.
  lemma {:induction false} ChainMovesSlots(p: Params, c: Cache, e: Element, last: int, epoch: bool, depth: nat)
      returns (lost: Slot)
    requires ParamsOk(p) && Shaped(p, c)
    ensures var c', end := Chain(p, c, e, last, epoch, depth), ChainEnd(p, c, e, last, epoch, depth);
            && Shaped(p, c')
            && multiset(Slots(c')) + multiset{lost} == multiset(Slots(c)) + multiset{Slot(e, false, epoch)}
            && (end >= 0 ==> lost.discard)
    decreases depth
  {
    if depth == 0 {
      lost := Slot(e, false, epoch);
    } else {
      hide FindFree, NextLoc, Slots;
      var free := FindFree(c.discard, p.hashes(e));
      Free(c.discard, p.hashes(e));
      if 0 <= free < p.size {
        SlotsPut(c, free, e, epoch);
        SlotSwapped(Slots(c), free, Slot(e, false, epoch));
        lost := Slots(c)[free];
      } else {
        var loc := NextLoc(p.hashes(e), last);
        NextIsLoc(p, e, last);
        NotFreeIsKept(p, c, e, loc);
        SlotsPut(c, loc, e, epoch);
        SlotSwapped(Slots(c), loc, Slot(e, false, epoch));
        lost := ChainMovesSlots(p, Swap(c, loc, e, epoch), c.table[loc], loc, c.epoch[loc], depth - 1);
      }
    }
  }

  lemma SlotsShow(c: Cache, x: Element, status: Status)
    requires |c.table| == |c.discard| == |c.epoch|
    ensures status != Absent ==>
              (Has(c, x, status) <==> exists t | t in Slots(c) :: t.e == x && FlagStatus(t.discard, t.epoch) == status)
    ensures Has(c, x, Absent) <==> forall t | t in Slots(c) :: t.e != x
  {
    if i :| 0 <= i < |c.table| && c.table[i] == x && FlagStatus(c.discard[i], c.epoch[i]) == status {
      assert Slots(c)[i] in Slots(c);
    }
    if Has(c, x, Absent) {
      forall t | t in Slots(c) ensures t.e != x {}
    } else {
      var i :| 0 <= i < |c.table| && c.table[i] == x;
      assert Slots(c)[i] in Slots(c);
    }
  }

  // An element in its one place has one status.
  lemma OneStatus(p: Params, c: Cache, x: Element, t: Slot, status: Status)
    requires Shaped(p, c) && Placed(p, c.table) && x != DEFAULT && Has(c, x, status) && t in Slots(c) && t.e == x
    ensures FlagStatus(t.discard, t.epoch) == status
  {
    var j :| 0 <= j < |c.table| && Slots(c)[j] == t;
    assert status != Absent;
    var i :| 0 <= i < |c.table| && c.table[i] == x && FlagStatus(c.discard[i], c.epoch[i]) == status;
    assert i == j;
  }

  lemma SlotsExchanged(a: seq<Slot>, b: seq<Slot>, lost: Slot, t: Slot, x: Slot)
    requires multiset(b) + multiset{lost} == multiset(a) + multiset{t}
    ensures x in b ==> x == t || x in a
    ensures x != lost && (x == t || x in a) ==> x in b
    ensures lost == t ==> (x in a <==> x in b)
    ensures lost == t || lost in a
  {
    assert (multiset(b) + multiset{lost})[x] == (multiset(a) + multiset{t})[x];
    assert (multiset(b) + multiset{lost})[lost] == (multiset(a) + multiset{t})[lost];
    assert x in b <==> multiset(b)[x] > 0;
    assert x in a <==> multiset(a)[x] > 0;
    assert lost in a <==> multiset(a)[lost] > 0;
  }

  // Another element after the exchange of a slot: as before, or lost, and then it had the lost slot.
  lemma OtherAfter(p: Params, c: Cache, c': Cache, lost: Slot, t: Slot, x: Element, status: Status)
    requires Shaped(p, c) && Shaped(p, c') && Placed(p, c.table) && x != DEFAULT && x != t.e && Has(c, x, status)
    requires multiset(Slots(c')) + multiset{lost} == multiset(Slots(c)) + multiset{t}
    ensures Has(c', x, status) || (x == lost.e && lost in Slots(c) && Has(c', x, Absent))
  {
    hide Has, Slots, Placed;
    SlotsShow(c, x, status);
    SlotsShow(c', x, status);
    forall s: Slot
      ensures s.e == x && s in Slots(c') ==> s in Slots(c)
      ensures s.e == x && s != lost && s in Slots(c) ==> s in Slots(c')
    {
      SlotsExchanged(Slots(c), Slots(c'), lost, t, s);
    }
    SlotsExchanged(Slots(c), Slots(c'), lost, t, lost);
    if s :| s in Slots(c') && s.e == x { OneStatus(p, c, x, s, status); }
  }

  // The status after a look at the epoch.
  function Now(p: Params, c: Cache, status: Status): Status
    requires Shaped(p, c)
  {
    if EpochEnds(p, c) then Aged(status) else status
  }

  // What becomes of an element when e is inserted: e is current, all others are as they were but one that may be lost.
  ghost predicate Outcome(p: Params, c: Cache, e: Element, lost: Element, x: Element, status: Status)
    requires ParamsOk(p) && Shaped(p, c)
  {
    var c' := Insert(p, c, e);
    if x == e then Has(c', e, Current) || (status == Absent && lost == e && Has(c', e, Absent))
    else Has(c', x, Now(p, c, status)) || (x == lost && Has(c', x, Absent))
  }

  lemma OutcomeOfKnown(p: Params, c: Cache, e: Element, x: Element, status: Status)
    requires ParamsOk(p) && Shaped(p, c) && Placed(p, c.table) && e != DEFAULT && Contains(p, c, e)
    requires x != DEFAULT && Has(c, x, status)
    ensures Outcome(p, c, e, DEFAULT, x, status)
  {
    hide EpochCheck, EpochEnds;
    EpochAges(p, c, x, status);
    var c1, now := EpochCheck(p, c), Now(p, c, status);
    Found(c1.table, p.hashes(e), e);
    var loc, c' := FindElement(c1.table, p.hashes(e), e), Insert(p, c, e);
    if x == e {
      assert c'.table[loc] == e && FlagStatus(c'.discard[loc], c'.epoch[loc]) == Current;
    } else if now != Absent {
      var i :| 0 <= i < |c1.table| && c1.table[i] == x && FlagStatus(c1.discard[i], c1.epoch[i]) == now;
      assert c'.table[i] == x && FlagStatus(c'.discard[i], c'.epoch[i]) == now;
    }
  }

  lemma OutcomeOfNew(p: Params, c: Cache, e: Element, lost: Slot, x: Element, status: Status)
    requires ParamsOk(p) && Shaped(p, c) && Placed(p, c.table) && e != DEFAULT && !Contains(p, c, e)
    requires x != DEFAULT && Has(c, x, status) && Shaped(p, EpochCheck(p, c)) && Shaped(p, Insert(p, c, e))
    requires multiset(Slots(Insert(p, c, e))) + multiset{lost}
          == multiset(Slots(EpochCheck(p, c))) + multiset{Slot(e, false, true)}
    ensures Outcome(p, c, e, lost.e, x, status)
    ensures lost.discard ==> lost.e != e
    ensures lost.discard && x == lost.e ==> Now(p, c, status) == Discardable
  {
    hide EpochCheck, EpochEnds, Insert, Has, Slots, Placed;
    EpochAges(p, c, x, status);
    var c1, c', t := EpochCheck(p, c), Insert(p, c, e), Slot(e, false, true);
    ContainsIff(p, c, e);
    SlotsShow(c1, e, Absent);
    assert Has(c1, e, Absent) by { AbsentShows(c1, e); }
    SlotsExchanged(Slots(c1), Slots(c'), lost, t, t);
    if lost.e == e {
      assert lost == t;
      forall s: Slot ensures s in Slots(c1) <==> s in Slots(c') { SlotsExchanged(Slots(c1), Slots(c'), lost, t, s); }
      SlotsShow(c', e, Absent);
    } else {
      SlotsShow(c', e, Current);
    }
    if x == e {
      if status != Absent { PresentShows(c, e, status); }
    } else {
      OtherAfter(p, c1, c', lost, t, x, Now(p, c, status));
      if x == lost.e {
        SlotsExchanged(Slots(c1), Slots(c'), lost, t, lost);
        OneStatus(p, c1, x, lost, Now(p, c, status));
      }
    }
  }

  lemma AbsentShows(c: Cache, x: Element)
    requires |c.table| == |c.discard| == |c.epoch| && x !in c.table
    ensures Has(c, x, Absent)
  {
  }

  lemma PresentShows(c: Cache, x: Element, status: Status)
    requires Has(c, x, status) && status != Absent
    ensures x in c.table
  {
  }

  // An insertion leaves e current, unless the chain got too long and e is what was lost, and everything else as it was,
  // aged if an epoch ended, but for one element. If the chain found a slot, that element was discardable.
  lemma InsertLife(p: Params, c: Cache, e: Element) returns (lost: Element)
    requires ParamsOk(p) && Shaped(p, c) && Placed(p, c.table) && e != DEFAULT
    ensures forall x, status | x != DEFAULT && Has(c, x, status) :: Outcome(p, c, e, lost, x, status)
    ensures InsertEnd(p, c, e) >= 0 || Contains(p, c, e) ==> lost != e
    ensures InsertEnd(p, c, e) >= 0 || Contains(p, c, e) ==>
              forall status | lost != DEFAULT && Has(c, lost, status) :: Now(p, c, status) == Discardable
  {
    hide Outcome, Has, Placed, Now, Chain, ChainEnd, Slots, EpochCheck;
    EpochKeepsTable(p, c);
    if Contains(p, c, e) {
      lost := DEFAULT;
      forall x, status | x != DEFAULT && Has(c, x, status) ensures Outcome(p, c, e, lost, x, status) {
        OutcomeOfKnown(p, c, e, x, status);
      }
    } else {
      var c1 := EpochCheck(p, c);
      var slot := ChainMovesSlots(p, c1, e, -1, true, p.depth);
      lost := slot.e;
      assert Insert(p, c, e) == Chain(p, c1, e, -1, true, p.depth);
      forall x, status | x != DEFAULT && Has(c, x, status)
        ensures Outcome(p, c, e, lost, x, status)
        ensures slot.discard ==> lost != e && (x == lost ==> Now(p, c, status) == Discardable)
      {
        OutcomeOfNew(p, c, e, slot, x, status);
      }
      ContainsIff(p, c, e);
      AbsentShows(c, e);
    }
  }

  // If one of the slots of e may be discarded, after the look at the epoch, e is kept.
  lemma RoomIsUsed(p: Params, c: Cache, e: Element, k: nat)
    requires ParamsOk(p) && Shaped(p, c) && Placed(p, c.table) && e != DEFAULT && p.depth >= 1 && k < WIDTH
    requires Shaped(p, EpochCheck(p, c)) && EpochCheck(p, c).discard[p.hashes(e)[k]]
    ensures Has(Insert(p, c, e), e, Current)
  {
    hide Has, EpochCheck, Placed, Insert, EpochEnds;
    Free(EpochCheck(p, c).discard, p.hashes(e));
    var lost := InsertLife(p, c, e);
    ContainsIff(p, c, e);
    if e in c.table {
      var i :| 0 <= i < |c.table| && c.table[i] == e;
      assert Has(c, e, FlagStatus(c.discard[i], c.epoch[i])) by { SlotShows(c, i); }
    } else {
      AbsentShows(c, e);
      assert Has(c, e, Absent);
    }
  }

  lemma SlotShows(c: Cache, i: nat)
    requires i < |c.table| == |c.discard| == |c.epoch|
    ensures Has(c, c.table[i], FlagStatus(c.discard[i], c.epoch[i]))
  {
  }
}
