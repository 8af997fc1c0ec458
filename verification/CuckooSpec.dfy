/**
 The cuckoo cache as a value: eight hash slots per element, displacement chains of bounded
 length, lazy deletion by a discard flag, and ageing by epochs.
 */
module CuckooSpec {

  // Elements of the table; all slots hold the default element at first.
  type Element = nat
  const DEFAULT: Element := 0

  const WIDTH: nat := 8

  datatype Params = Params(size: nat, depth: nat, epochSize: nat, hashes: Element -> seq<nat>)

  ghost predicate ParamsOk(p: Params) {
    && p.epochSize >= 1
    && (forall e :: |p.hashes(e)| == WIDTH && forall k | 0 <= k < WIDTH :: p.hashes(e)[k] < p.size)
  }

  // What each slot holds, whether it may be discarded, and whether it is of the current epoch.
  datatype Cache = Cache(table: seq<Element>, discard: seq<bool>, epoch: seq<bool>, counter: nat)

  predicate Shaped(p: Params, c: Cache) {
    |c.table| == p.size && |c.discard| == p.size && |c.epoch| == p.size
  }

  function Setup(p: Params): Cache {
    Cache(seq(p.size, i => DEFAULT), seq(p.size, i => true), seq(p.size, i => false), p.epochSize)
  }

  /* ----- The operations ----- */

  // The first slot of locs that holds e, or -1.
  function FindElement(table: seq<Element>, locs: seq<nat>, e: Element): int {
    if locs == [] then -1
    else if locs[0] < |table| && table[locs[0]] == e then locs[0]
    else FindElement(table, locs[1..], e)
  }

  // The first slot of locs that may be discarded, or -1.
  function FindFree(discard: seq<bool>, locs: seq<nat>): int {
    if locs == [] then -1
    else if locs[0] < |discard| && discard[locs[0]] then locs[0]
    else FindFree(discard, locs[1..])
  }

  // The position of x, or the length.
  function IndexOf(locs: seq<nat>, x: int): nat
    ensures IndexOf(locs, x) <= |locs|
  {
    if locs == [] || locs[0] == x then 0 else 1 + IndexOf(locs[1..], x)
  }

  function NextLoc(locs: seq<nat>, last: int): nat
    requires |locs| == WIDTH
  {
    locs[(1 + IndexOf(locs, last)) % WIDTH]
  }

  function Put(c: Cache, loc: nat, e: Element, epoch: bool): Cache
    requires loc < |c.table| == |c.discard| == |c.epoch|
  {
    c.(table := c.table[loc := e], discard := c.discard[loc := false], epoch := c.epoch[loc := epoch])
  }

  function Swap(c: Cache, loc: nat, e: Element, epoch: bool): Cache
    requires loc < |c.table| == |c.discard| == |c.epoch|
  {
    c.(table := c.table[loc := e], epoch := c.epoch[loc := epoch])
  }

  // Places e, with its epoch, pushing out at most `depth` others one after the other.
  function Chain(p: Params, c: Cache, e: Element, last: int, epoch: bool, depth: nat): Cache
    requires ParamsOk(p) && Shaped(p, c)
    decreases depth
  {
    if depth == 0 then c
    else
      var free := FindFree(c.discard, p.hashes(e));
      if 0 <= free < p.size then Put(c, free, e, epoch)
      else
        var loc := NextLoc(p.hashes(e), last);
        Chain(p, Swap(c, loc, e, epoch), c.table[loc], loc, c.epoch[loc], depth - 1)
  }

  // Where the chain ends: a slot that could be discarded, or -1 when it got too long.
  function ChainEnd(p: Params, c: Cache, e: Element, last: int, epoch: bool, depth: nat): int
    requires ParamsOk(p) && Shaped(p, c)
    decreases depth
  {
    if depth == 0 then -1
    else
      var free := FindFree(c.discard, p.hashes(e));
      if 0 <= free < p.size then free
      else
        var loc := NextLoc(p.hashes(e), last);
        ChainEnd(p, Swap(c, loc, e, epoch), c.table[loc], loc, c.epoch[loc], depth - 1)
  }

  // The entries of the current epoch that may not be discarded.
  function Live(discard: seq<bool>, epoch: seq<bool>): nat
    requires |discard| == |epoch|
  {
    if discard == [] then 0
    else
      var n := |discard| - 1;
      Live(discard[..n], epoch[..n]) + if epoch[n] && !discard[n] then 1 else 0
  }

  // Ends the epoch: the old entries may be discarded, the current ones become old.
  function Age(c: Cache): Cache
    requires |c.discard| == |c.epoch|
  {
    c.(discard := seq(|c.discard|, i requires 0 <= i < |c.discard| => c.discard[i] || !c.epoch[i]),
       epoch := seq(|c.epoch|, i => false))
  }

  function Max(a: nat, b: nat): nat { if a < b then b else a }

  function EpochCheck(p: Params, c: Cache): Cache
    requires Shaped(p, c)
  {
    if c.counter != 0 then c.(counter := c.counter - 1)
    else
      var live := Live(c.discard, c.epoch);
      if live >= p.epochSize then Age(c).(counter := p.epochSize)
      else c.(counter := Max(1, Max(p.epochSize / 16, p.epochSize - live)))
  }

  function Keep(c: Cache, loc: nat): Cache
    requires loc < |c.discard| == |c.epoch|
  {
    c.(discard := c.discard[loc := false], epoch := c.epoch[loc := true])
  }

  function Insert(p: Params, c: Cache, e: Element): Cache
    requires ParamsOk(p) && Shaped(p, c)
  {
    var c1 := EpochCheck(p, c);
    var loc := FindElement(c1.table, p.hashes(e), e);
    if 0 <= loc < p.size then Keep(c1, loc) else Chain(p, c1, e, -1, true, p.depth)
  }

  function Contains(p: Params, c: Cache, e: Element): bool
    requires ParamsOk(p) && Shaped(p, c)
  {
    FindElement(c.table, p.hashes(e), e) >= 0
  }

  function Erase(p: Params, c: Cache, e: Element): Cache
    requires ParamsOk(p) && Shaped(p, c)
  {
    var loc := FindElement(c.table, p.hashes(e), e);
    if 0 <= loc < p.size then c.(discard := c.discard[loc := true]) else c
  }

  /* ----- Finding ----- */

  lemma {:induction false} Found(table: seq<Element>, locs: seq<nat>, e: Element)
    ensures var loc := FindElement(table, locs, e);
            if loc < 0 then loc == -1 && forall k | 0 <= k < |locs| && locs[k] < |table| :: table[locs[k]] != e
            else loc in locs && loc < |table| && table[loc] == e
  {
    if locs != [] {
      Found(table, locs[1..], e);
      assert forall k | 1 <= k < |locs| :: locs[k] == locs[1..][k - 1];
    }
  }

  lemma {:induction false} Free(discard: seq<bool>, locs: seq<nat>)
    ensures var loc := FindFree(discard, locs);
            if loc < 0 then loc == -1 && forall k | 0 <= k < |locs| && locs[k] < |discard| :: !discard[locs[k]]
            else loc in locs && loc < |discard| && discard[loc]
  {
    if locs != [] {
      Free(discard, locs[1..]);
      assert forall k | 1 <= k < |locs| :: locs[k] == locs[1..][k - 1];
    }
  }

  lemma NextIsLoc(p: Params, e: Element, last: int)
    requires ParamsOk(p)
    ensures var loc := NextLoc(p.hashes(e), last); loc < p.size && loc in p.hashes(e)
  {
  }

  /* ----- Where elements are ----- */

  // Every element but the default sits in at most one slot, and that is one of its own.
  ghost predicate Placed(p: Params, table: seq<Element>)
  {
    && (forall i | 0 <= i < |table| && table[i] != DEFAULT :: i in p.hashes(table[i]))
    && (forall i, j | 0 <= i < j < |table| && table[i] != DEFAULT :: table[i] != table[j])
  }

  // An element on its way into the table is nowhere in it.
  predicate Homeless(table: seq<Element>, e: Element) {
    e == DEFAULT || e !in table
  }

  lemma PlacedPut(p: Params, table: seq<Element>, loc: nat, e: Element)
    requires Placed(p, table) && Homeless(table, e) && loc < |table| && loc in p.hashes(e)
    ensures Placed(p, table[loc := e]) && Homeless(table[loc := e], table[loc])
  {
    var table' := table[loc := e];
    if table[loc] != DEFAULT {
      forall j | 0 <= j < |table'| ensures table'[j] != table[loc] {}
    }
  }

  lemma {:induction false} ChainKeepsPlaces(p: Params, c: Cache, e: Element, last: int, epoch: bool, depth: nat)
    requires ParamsOk(p) && Shaped(p, c) && Placed(p, c.table) && Homeless(c.table, e)
    ensures var c' := Chain(p, c, e, last, epoch, depth); Shaped(p, c') && Placed(p, c'.table)
    decreases depth
  {
    if depth > 0 {
      hide Placed, Homeless, FindFree, NextLoc;
      var free := FindFree(c.discard, p.hashes(e));
      Free(c.discard, p.hashes(e));
      if 0 <= free < p.size {
        PlacedPut(p, c.table, free, e);
      } else {
        var loc := NextLoc(p.hashes(e), last);
        NextIsLoc(p, e, last);
        PlacedPut(p, c.table, loc, e);
        ChainKeepsPlaces(p, Swap(c, loc, e, epoch), c.table[loc], loc, c.epoch[loc], depth - 1);
      }
    }
  }

  lemma AbsentIsHomeless(p: Params, table: seq<Element>, e: Element)
    requires ParamsOk(p) && Placed(p, table) && |table| == p.size && FindElement(table, p.hashes(e), e) < 0
    ensures Homeless(table, e)
  {
    Found(table, p.hashes(e), e);
    if e != DEFAULT {
      forall i | 0 <= i < |table| ensures table[i] != e {}
    }
  }

  lemma InsertKeepsPlaces(p: Params, c: Cache, e: Element)
    requires ParamsOk(p) && Shaped(p, c) && Placed(p, c.table)
    ensures Shaped(p, Insert(p, c, e)) && Placed(p, Insert(p, c, e).table)
  {
    var c1 := EpochCheck(p, c);
    Found(c1.table, p.hashes(e), e);
    if FindElement(c1.table, p.hashes(e), e) < 0 {
      AbsentIsHomeless(p, c1.table, e);
      ChainKeepsPlaces(p, c1, e, -1, true, p.depth);
    }
  }

  // Looking into the eight slots is looking into the whole table.
  lemma ContainsIff(p: Params, c: Cache, e: Element)
    requires ParamsOk(p) && Shaped(p, c) && Placed(p, c.table) && e != DEFAULT
    ensures Contains(p, c, e) <==> e in c.table
  {
    Found(c.table, p.hashes(e), e);
    if !Contains(p, c, e) { AbsentIsHomeless(p, c.table, e); }
  }

  /* ----- What an insertion loses ----- */

  lemma {:induction false} MultisetPut(table: seq<Element>, loc: nat, e: Element)
    requires loc < |table|
    ensures multiset(table[loc := e]) + multiset{table[loc]} == multiset(table) + multiset{e}
  {
    assert table == table[..loc] + [table[loc]] + table[loc + 1..];
    assert table[loc := e] == table[..loc] + [e] + table[loc + 1..];
  }

  // The table and the newcomer lose one element: what was in the discardable slot where the chain ended,
  // or the one left over when the chain got too long.
  lemma {:induction false} ChainLosesOne(p: Params, c: Cache, e: Element, last: int, epoch: bool, depth: nat)
      returns (lost: Element)
    requires ParamsOk(p) && Shaped(p, c)
    ensures var c', end := Chain(p, c, e, last, epoch, depth), ChainEnd(p, c, e, last, epoch, depth);
            && multiset(c'.table) + multiset{lost} == multiset(c.table) + multiset{e}
            && (if end < 0 then c'.discard == c.discard
                else end < p.size && c.discard[end] && lost == c.table[end] && c'.discard == c.discard[end := false])
    decreases depth
  {
    if depth == 0 {
      lost := e;
    } else {
      hide FindFree, NextLoc;
      var free := FindFree(c.discard, p.hashes(e));
      Free(c.discard, p.hashes(e));
      if 0 <= free < p.size {
        MultisetPut(c.table, free, e);
        lost := c.table[free];
      } else {
        var loc := NextLoc(p.hashes(e), last);
        NextIsLoc(p, e, last);
        MultisetPut(c.table, loc, e);
        NotFreeIsKept(p, c, e, loc);
        lost := ChainLosesOne(p, Swap(c, loc, e, epoch), c.table[loc], loc, c.epoch[loc], depth - 1);
      }
    }
  }

  lemma NotFreeIsKept(p: Params, c: Cache, e: Element, loc: nat)
    requires ParamsOk(p) && Shaped(p, c) && FindFree(c.discard, p.hashes(e)) < 0 && loc in p.hashes(e)
    ensures loc < p.size && !c.discard[loc]
  {
    Free(c.discard, p.hashes(e));
    var k :| 0 <= k < WIDTH && p.hashes(e)[k] == loc;
  }

  // Where the insertion of e ends: -1 when e is there already or the chain got too long.
  function InsertEnd(p: Params, c: Cache, e: Element): int
    requires ParamsOk(p) && Shaped(p, c)
  {
    if Contains(p, c, e) then -1 else ChainEnd(p, EpochCheck(p, c), e, -1, true, p.depth)
  }

  // Nothing but e is new, and at most one element is gone from the table and the newcomer.
  lemma InsertLosesAtMostOne(p: Params, c: Cache, e: Element) returns (lost: Element)
    requires ParamsOk(p) && Shaped(p, c) && Placed(p, c.table)
    ensures forall x | x != DEFAULT && x != lost :: x in Insert(p, c, e).table <==> x == e || x in c.table
    ensures lost != DEFAULT && lost in Insert(p, c, e).table ==> lost == e || lost in c.table
    ensures InsertEnd(p, c, e) >= 0 ==>
              InsertEnd(p, c, e) < p.size && EpochCheck(p, c).discard[InsertEnd(p, c, e)] &&
                  lost == c.table[InsertEnd(p, c, e)]
  {
    var c1, c' := EpochCheck(p, c), Insert(p, c, e);
    hide Chain, ChainEnd, EpochCheck, Placed;
    EpochKeepsTable(p, c);
    Found(c.table, p.hashes(e), e);
    if Contains(p, c, e) {
      lost := DEFAULT;
    } else {
      lost := ChainLosesOne(p, c1, e, -1, true, p.depth);
      forall x
        ensures x != lost ==> (x in c'.table <==> x == e || x in c.table)
        ensures x == lost && x in c'.table ==> x == e || x in c.table
      {
        Exchanged(c.table, c'.table, lost, e, x);
      }
    }
  }

  lemma Exchanged(a: seq<Element>, b: seq<Element>, lost: Element, e: Element, x: Element)
    requires multiset(b) + multiset{lost} == multiset(a) + multiset{e}
    ensures x != lost ==> (x in b <==> x == e || x in a)
    ensures x == lost && x in b ==> x == e || x in a
  {
    assert (multiset(b) + multiset{lost})[x] == (multiset(a) + multiset{e})[x];
    assert x in b <==> multiset(b)[x] > 0;
    assert x in a <==> multiset(a)[x] > 0;
  }

  lemma EpochKeepsTable(p: Params, c: Cache)
    requires Shaped(p, c)
    ensures Shaped(p, EpochCheck(p, c)) && EpochCheck(p, c).table == c.table
  {
  }

  // When the insertion ends in a slot, the newcomer is found, and so is every element that could not be discarded.
  lemma InsertRemembers(p: Params, c: Cache, e: Element, i: nat)
    requires ParamsOk(p) && Shaped(p, c) && Placed(p, c.table) && e != DEFAULT && InsertEnd(p, c, e) >= 0
    requires i < p.size && !EpochCheck(p, c).discard[i] && c.table[i] != DEFAULT
    ensures Shaped(p, Insert(p, c, e)) && Contains(p, Insert(p, c, e), e) && Contains(p, Insert(p, c, e), c.table[i])
  {
    var c' := Insert(p, c, e);
    hide Insert, InsertEnd, EpochCheck;
    var lost := InsertLosesAtMostOne(p, c, e);
    InsertKeepsPlaces(p, c, e);
    var end := InsertEnd(p, c, e);
    EndIsAbsent(p, c, e);
    ContainsIff(p, c, e);
    ContainsIff(p, c', e);
    ContainsIff(p, c', c.table[i]);
    assert lost == c.table[end] && lost in c.table && c.table[i] != lost;
  }

  lemma EndIsAbsent(p: Params, c: Cache, e: Element)
    requires ParamsOk(p) && Shaped(p, c) && InsertEnd(p, c, e) >= 0
    ensures !Contains(p, c, e)
  {
  }

  /* ----- How many entries the current epoch has ----- */

  lemma {:induction false} LiveUpdate(discard: seq<bool>, epoch: seq<bool>, i: nat, d: bool, n: bool)
    requires i < |discard| == |epoch|
    ensures Live(discard[i := d], epoch[i := n])
         == Live(discard, epoch) - (if epoch[i] && !discard[i] then 1 else 0) + (if n && !d then 1 else 0)
  {
    var k := |discard| - 1;
    if i == k {
      assert discard[i := d][..k] == discard[..k] && epoch[i := n][..k] == epoch[..k];
    } else {
      assert discard[i := d][..k] == discard[..k][i := d] && epoch[i := n][..k] == epoch[..k][i := n];
      LiveUpdate(discard[..k], epoch[..k], i, d, n);
    }
  }

  lemma {:induction false} NoneLive(discard: seq<bool>, epoch: seq<bool>)
    requires |discard| == |epoch| && forall i | 0 <= i < |epoch| :: !epoch[i]
    ensures Live(discard, epoch) == 0
  {
    if discard != [] { NoneLive(discard[..|discard| - 1], epoch[..|epoch| - 1]); }
  }

  // A chain moves epochs along with the elements and adds at most that of the newcomer.
  lemma {:induction false} ChainAddsOne(p: Params, c: Cache, e: Element, last: int, epoch: bool, depth: nat)
    requires ParamsOk(p) && Shaped(p, c)
    ensures var c' := Chain(p, c, e, last, epoch, depth);
            Shaped(p, c') && Live(c'.discard, c'.epoch) <= Live(c.discard, c.epoch) + (if epoch then 1 else 0) &&
                c'.counter == c.counter
    decreases depth
  {
    if depth > 0 {
      hide FindFree, NextLoc, Live;
      var free := FindFree(c.discard, p.hashes(e));
      Free(c.discard, p.hashes(e));
      if 0 <= free < p.size {
        LiveUpdate(c.discard, c.epoch, free, false, epoch);
      } else {
        var loc := NextLoc(p.hashes(e), last);
        NextIsLoc(p, e, last);
        NotFreeIsKept(p, c, e, loc);
        LiveUpdate(c.discard, c.epoch, loc, false, epoch);
        assert c.discard[loc := false] == c.discard;
        ChainAddsOne(p, Swap(c, loc, e, epoch), c.table[loc], loc, c.epoch[loc], depth - 1);
      }
    }
  }

  function Bound(p: Params): nat {
    p.epochSize + Max(1, p.epochSize / 16)
  }

  predicate Bounded(p: Params, c: Cache)
    requires Shaped(p, c)
  {
    Live(c.discard, c.epoch) + c.counter <= Bound(p)
  }

  lemma EpochMakesRoom(p: Params, c: Cache)
    requires Shaped(p, c) && Bounded(p, c) && p.epochSize >= 1
    ensures var c1 := EpochCheck(p, c); Shaped(p, c1) && Live(c1.discard, c1.epoch) + c1.counter + 1 <= Bound(p)
  {
    if c.counter == 0 {
      var aged := Age(c);
      NoneLive(aged.discard, aged.epoch);
    }
  }

  lemma InsertIsBounded(p: Params, c: Cache, e: Element)
    requires ParamsOk(p) && Shaped(p, c) && Bounded(p, c)
    ensures Shaped(p, Insert(p, c, e)) && Bounded(p, Insert(p, c, e))
  {
    var c1 := EpochCheck(p, c);
    EpochMakesRoom(p, c);
    hide EpochCheck, Live, Chain;
    Found(c1.table, p.hashes(e), e);
    var loc := FindElement(c1.table, p.hashes(e), e);
    if 0 <= loc < p.size {
      LiveUpdate(c1.discard, c1.epoch, loc, false, true);
    } else {
      ChainAddsOne(p, c1, e, -1, true, p.depth);
    }
  }

  lemma EraseIsOk(p: Params, c: Cache, e: Element)
    requires ParamsOk(p) && Shaped(p, c) && Bounded(p, c)
    ensures Shaped(p, Erase(p, c, e)) && Bounded(p, Erase(p, c, e)) && Erase(p, c, e).table == c.table
  {
    hide Live;
    var loc := FindElement(c.table, p.hashes(e), e);
    if 0 <= loc < p.size {
      assert c.epoch[loc := c.epoch[loc]] == c.epoch;
      LiveUpdate(c.discard, c.epoch, loc, true, c.epoch[loc]);
    }
  }

  /* ----- Every run from setup ----- */

  datatype Op = InsertOp(e: Element) | LookUp(e: Element, erase: bool)

  function Apply(p: Params, c: Cache, op: Op): Cache
    requires ParamsOk(p) && Shaped(p, c)
  {
    match op
    case InsertOp(e) => Insert(p, c, e)
    case LookUp(e, erase) => if erase then Erase(p, c, e) else c
  }

  ghost predicate Inv(p: Params, c: Cache) {
    Shaped(p, c) && Placed(p, c.table) && Bounded(p, c)
  }

  ghost function Run(p: Params, ops: seq<Op>): Cache
    requires ParamsOk(p)
    ensures Inv(p, Run(p, ops))
  {
    if ops == [] then
      SetupIsOk(p);
      Setup(p)
    else
      var c := Run(p, ops[..|ops| - 1]);
      ApplyIsOk(p, c, ops[|ops| - 1]);
      Apply(p, c, ops[|ops| - 1])
  }

  lemma SetupIsOk(p: Params)
    ensures Inv(p, Setup(p))
  {
    NoneLive(Setup(p).discard, Setup(p).epoch);
  }

  lemma ApplyIsOk(p: Params, c: Cache, op: Op)
    requires ParamsOk(p) && Inv(p, c)
    ensures Inv(p, Apply(p, c, op))
  {
    hide Insert, Erase, Placed, Bounded;
    match op
    case InsertOp(e) =>
      InsertKeepsPlaces(p, c, e);
      InsertIsBounded(p, c, e);
    case LookUp(e, erase) =>
      EraseIsOk(p, c, e);
  }

  // In every state reached, elements are where they should be and the current epoch is not much over its size.
  lemma RunIsOk(p: Params, ops: seq<Op>)
    requires ParamsOk(p)
    ensures var c := Run(p, ops);
            Shaped(p, c) && Placed(p, c.table) && Live(c.discard, c.epoch) <= p.epochSize + Max(1, p.epochSize / 16)
  {
    assert Inv(p, Run(p, ops));
  }

  // What is found has been inserted.
  lemma {:induction false} FoundWasInserted(p: Params, ops: seq<Op>, x: Element)
    requires ParamsOk(p) && x != DEFAULT && Contains(p, Run(p, ops), x)
    ensures InsertOp(x) in ops
  {
    hide Insert, Erase, Placed, Bounded;
    var c' := Run(p, ops);
    ContainsIff(p, c', x);
    if ops != [] {
      var init, op := ops[..|ops| - 1], ops[|ops| - 1];
      var c := Run(p, init);
      ContainsIff(p, c, x);
      match op
      case InsertOp(e) =>
        var lost := InsertLosesAtMostOne(p, c, e);
        if x != e { FoundWasInserted(p, init, x); }
      case LookUp(e, erase) =>
        EraseIsOk(p, c, e);
        FoundWasInserted(p, init, x);
    }
  }
}
