/**
 The cuckoo cache itself: a table and epoch flags updated in place, and the discard flags
 packed eight to a byte. Each method does to the contents what CuckooSpec says.
 */
module CuckooCaches {
  import opened CuckooSpec
  import Spec = CuckooSpec
  import Powers

  /* ----- Flags packed into bytes ----- */

  function Mask(k: nat): bv8
    requires k < 8
  {
    (1 as bv8) << k
  }

  predicate Bit(m: bv8, k: nat)
    requires k < 8
  {
    m & Mask(k) != 0
  }

  lemma MaskSets(m: bv8, k: nat, j: nat)
    requires k < 8 && j < 8
    ensures Bit(m | Mask(k), j) <==> j == k || Bit(m, j)
  {
  }

  lemma MaskClears(m: bv8, k: nat, j: nat)
    requires k < 8 && j < 8
    ensures Bit(m & !Mask(k), j) <==> j != k && Bit(m, j)
  {
  }

  lemma AllSet(j: nat)
    requires j < 8
    ensures Bit(0xFF, j)
  {
  }

  predicate Flag(mem: seq<bv8>, s: nat)
    requires s < 8 * |mem|
  {
    Bit(mem[s / 8], s % 8)
  }

  // The first n flags of a run of bytes.
  function Unpack(mem: seq<bv8>, n: nat): (bits: seq<bool>)
    requires n <= 8 * |mem|
    ensures |bits| == n
  {
    seq(n, s requires 0 <= s < n => Flag(mem, s))
  }

  lemma SamePlace(s: nat, t: nat)
    ensures s == t <==> s / 8 == t / 8 && s % 8 == t % 8
  {
  }

  lemma BitOn(mem: seq<bv8>, a: nat, i: nat, b: nat, j: nat)
    requires a < |mem| && b < |mem| && i < 8 && j < 8
    ensures Bit(mem[a := mem[a] | Mask(i)][b], j) <==> (a == b && i == j) || Bit(mem[b], j)
  {
    hide Bit, Mask;
    if a == b { MaskSets(mem[a], i, j); }
  }

  lemma BitOff(mem: seq<bv8>, a: nat, i: nat, b: nat, j: nat)
    requires a < |mem| && b < |mem| && i < 8 && j < 8
    ensures Bit(mem[a := mem[a] & !Mask(i)][b], j) <==> !(a == b && i == j) && Bit(mem[b], j)
  {
    hide Bit, Mask;
    if a == b { MaskClears(mem[a], i, j); }
  }

  function TurnedOn(mem: seq<bv8>, s: nat): (r: seq<bv8>)
    requires s < 8 * |mem|
    ensures |r| == |mem|
  {
    mem[s / 8 := mem[s / 8] | Mask(s % 8)]
  }

  function TurnedOff(mem: seq<bv8>, s: nat): (r: seq<bv8>)
    requires s < 8 * |mem|
    ensures |r| == |mem|
  {
    mem[s / 8 := mem[s / 8] & !Mask(s % 8)]
  }

  lemma FlagOn(mem: seq<bv8>, s: nat, t: nat)
    requires s < 8 * |mem| && t < 8 * |mem|
    ensures Flag(TurnedOn(mem, s), t) <==> t == s || Flag(mem, t)
  {
    hide Bit, Mask;
    SamePlace(s, t);
    BitOn(mem, s / 8, s % 8, t / 8, t % 8);
  }

  lemma FlagOff(mem: seq<bv8>, s: nat, t: nat)
    requires s < 8 * |mem| && t < 8 * |mem|
    ensures Flag(TurnedOff(mem, s), t) <==> t != s && Flag(mem, t)
  {
    hide Bit, Mask;
    SamePlace(s, t);
    BitOff(mem, s / 8, s % 8, t / 8, t % 8);
  }

  lemma UnpackAfterSet(mem: seq<bv8>, n: nat, s: nat)
    requires s < n <= 8 * |mem|
    ensures Unpack(TurnedOn(mem, s), n) == Unpack(mem, n)[s := true]
    ensures Unpack(TurnedOff(mem, s), n) == Unpack(mem, n)[s := false]
  {
    hide Flag, TurnedOn, TurnedOff;
    forall t | 0 <= t < n
      ensures Unpack(TurnedOn(mem, s), n)[t] == Unpack(mem, n)[s := true][t]
      ensures Unpack(TurnedOff(mem, s), n)[t] == Unpack(mem, n)[s := false][t]
    {
      FlagOn(mem, s, t);
      FlagOff(mem, s, t);
    }
  }

  lemma UnpackFull(mem: seq<bv8>, n: nat)
    requires n <= 8 * |mem| && forall k | 0 <= k < |mem| :: mem[k] == 0xFF
    ensures Unpack(mem, n) == seq(n, i => true)
  {
    hide Bit, Mask;
    forall s | 0 <= s < n ensures Unpack(mem, n)[s] {
      AllSet(s % 8);
    }
  }

  class BitFlags {
    const mem: array<bv8>

    ghost function Bits(n: nat): (bits: seq<bool>)
      requires n <= 8 * mem.Length
      reads mem
      ensures |bits| == n
    {
      Unpack(mem[..], n)
    }

    constructor (size: nat)
      ensures size <= 8 * mem.Length && fresh(mem)
      ensures Bits(size) == seq(size, i => true)
    {
      var bytes := (size + 7) / 8;
      mem := new bv8[bytes];
      new;
      for i := 0 to bytes
        invariant forall k | 0 <= k < i :: mem[k] == 0xFF
      {
        mem[i] := 0xFF;
      }
      UnpackFull(mem[..], size);
    }

    method BitSet(s: nat, ghost size: nat)
      requires s < size <= 8 * mem.Length
      modifies mem
      ensures Bits(size) == old(Bits(size))[s := true]
    {
      hide Unpack, Mask;
      UnpackAfterSet(mem[..], size, s);
      mem[s / 8] := mem[s / 8] | Mask(s % 8);
      assert mem[..] == old(mem[..])[s / 8 := mem[s / 8]];
    }

    method BitUnset(s: nat, ghost size: nat)
      requires s < size <= 8 * mem.Length
      modifies mem
      ensures Bits(size) == old(Bits(size))[s := false]
    {
      hide Unpack, Mask;
      UnpackAfterSet(mem[..], size, s);
      mem[s / 8] := mem[s / 8] & !Mask(s % 8);
      assert mem[..] == old(mem[..])[s / 8 := mem[s / 8]];
    }

    method BitIsSet(s: nat, ghost size: nat) returns (b: bool)
      requires s < size <= 8 * mem.Length
      ensures b <==> Bits(size)[s]
    {
      b := Mask(s % 8) & mem[s / 8] != 0;
    }
  }

  /* ----- The cache ----- */

  const UINT32: nat := 0x1_0000_0000

  // The settings of a table of 2^depth slots. The eight hashes are masked to slots; 45% of the size wraps around.
  function Configure(depth: nat, hash: (nat, Element) -> nat): Params {
    var size := Powers.Pow(2, depth);
    Params(size, depth, Max(1, 45 * size % UINT32 / 100),
        e => seq(WIDTH, k requires 0 <= k < WIDTH => if size > 0 then hash(k, e) % size else 0))
  }

  lemma ConfigureIsOk(depth: nat, hash: (nat, Element) -> nat)
    ensures ParamsOk(Configure(depth, hash))
  {
    Powers.PowPositive(2, depth);
  }

  // The epoch ended for the first slots.
  function AgedBelow(c: Cache, n: nat): Cache
    requires |c.discard| == |c.epoch|
  {
    c.(discard := seq(|c.discard|, i requires 0 <= i < |c.discard| => c.discard[i] || (i < n && !c.epoch[i])),
       epoch := seq(|c.epoch|, i requires 0 <= i < |c.epoch| => c.epoch[i] && i >= n))
  }

  lemma AgedStep(c: Cache, n: nat)
    requires n < |c.discard| == |c.epoch|
    ensures AgedBelow(c, n).epoch[n] == c.epoch[n]
    ensures AgedBelow(c, n + 1)
         == if c.epoch[n] then AgedBelow(c, n).(epoch := AgedBelow(c, n).epoch[n := false])
            else AgedBelow(c, n).(discard := AgedBelow(c, n).discard[n := true])
  {
  }

  class Cuckoo {
    const p: Params
    const table: array<Element>
    const collection: BitFlags
    const epoch: array<bool>
    var counter: nat

    ghost predicate Valid() {
      && ParamsOk(p) && table.Length == p.size && epoch.Length == p.size && p.size <= 8 * collection.mem.Length
      && (table as object) != epoch && (table as object) != collection.mem && (epoch as object) != collection.mem
    }

    ghost function Model(): (c: Cache)
      requires Valid()
      reads this, table, epoch, collection.mem
      ensures Shaped(p, c)
    {
      Cache(table[..], collection.Bits(p.size), epoch[..], counter)
    }

    constructor (depth: nat, hash: (nat, Element) -> nat)
      ensures Valid() && p == Configure(depth, hash) && Model() == Setup(p)
      ensures fresh(table) && fresh(epoch) && fresh(collection.mem)
    {
      var settings := Configure(depth, hash);
      ConfigureIsOk(depth, hash);
      p := settings;
      table := new Element[settings.size](i => DEFAULT);
      collection := new BitFlags(settings.size);
      epoch := new bool[settings.size](i => false);
      counter := settings.epochSize;
    }

    method SetEpoch(n: nat, b: bool)
      requires Valid() && n < p.size
      modifies epoch
      ensures Model() == old(Model()).(epoch := old(Model()).epoch[n := b])
    {
      epoch[n] := b;
      assert epoch[..] == old(epoch[..])[n := b] && table[..] == old(table[..]);
    }

    method SetTable(n: nat, e: Element)
      requires Valid() && n < p.size
      modifies table
      ensures Model() == old(Model()).(table := old(Model()).table[n := e])
    {
      table[n] := e;
      assert table[..] == old(table[..])[n := e] && epoch[..] == old(epoch[..]);
    }

    method AllowErase(n: nat)
      requires Valid() && n < p.size
      modifies collection.mem
      ensures Model() == old(Model()).(discard := old(Model()).discard[n := true])
    {
      collection.BitSet(n, p.size);
      assert table[..] == old(table[..]) && epoch[..] == old(epoch[..]);
    }

    method PleaseKeep(n: nat)
      requires Valid() && n < p.size
      modifies collection.mem
      ensures Model() == old(Model()).(discard := old(Model()).discard[n := false])
    {
      collection.BitUnset(n, p.size);
      assert table[..] == old(table[..]) && epoch[..] == old(epoch[..]);
    }

    method CountLive() returns (count: nat)
      requires Valid()
      ensures count == Live(Model().discard, Model().epoch)
    {
      hide Unpack;
      ghost var c := Model();
      count := 0;
      for i := 0 to p.size
        invariant count == Live(c.discard[..i], c.epoch[..i])
      {
        var isSet := collection.BitIsSet(i, p.size);
        assert c.discard[..i + 1][..i] == c.discard[..i] && c.epoch[..i + 1][..i] == c.epoch[..i];
        if epoch[i] && !isSet {
          count := count + 1;
        }
      }
      assert c.discard[..p.size] == c.discard && c.epoch[..p.size] == c.epoch;
    }

    method EndEpoch()
      requires Valid()
      modifies epoch, collection.mem
      ensures Model() == Age(old(Model()))
    {
      ghost var c := Model();
      assert AgedBelow(c, 0) == c;
      hide Unpack;
      for i := 0 to p.size
        invariant Model() == AgedBelow(c, i)
      {
        AgedStep(c, i);
        if epoch[i] {
          SetEpoch(i, false);
        } else {
          AllowErase(i);
        }
      }
      assert AgedBelow(c, p.size) == Age(c);
    }

    method EpochCheck()
      requires Valid()
      modifies this, epoch, collection.mem
      ensures Model() == Spec.EpochCheck(p, old(Model()))
    {
      if counter != 0 {
        counter := counter - 1;
        return;
      }
      var unused := CountLive();
      if unused >= p.epochSize {
        EndEpoch();
        counter := p.epochSize;
      } else {
        counter := Max(1, Max(p.epochSize / 16, p.epochSize - unused));
      }
    }

    // The first of the slots that holds e, or -1.
    method Find(e: Element, locs: seq<nat>) returns (loc: int)
      requires Valid() && forall k | 0 <= k < |locs| :: locs[k] < p.size
      ensures loc == FindElement(Model().table, locs, e)
      ensures loc < p.size
    {
      for k := 0 to |locs|
        invariant FindElement(Model().table, locs, e) == FindElement(Model().table, locs[k..], e)
      {
        if table[locs[k]] == e {
          return locs[k];
        }
        assert locs[k..][1..] == locs[k + 1..];
      }
      return -1;
    }

    // The first of the slots that may be discarded, or -1.
    method FindDiscardable(locs: seq<nat>) returns (loc: int)
      requires Valid() && forall k | 0 <= k < |locs| :: locs[k] < p.size
      ensures loc == FindFree(Model().discard, locs)
      ensures loc < p.size
    {
      for k := 0 to |locs|
        invariant FindFree(Model().discard, locs) == FindFree(Model().discard, locs[k..])
      {
        var isSet := collection.BitIsSet(locs[k], p.size);
        if isSet {
          return locs[k];
        }
        assert locs[k..][1..] == locs[k + 1..];
      }
      return -1;
    }

    // The source's std::find.
    method Position(locs: seq<nat>, x: int) returns (k: nat)
      ensures k == IndexOf(locs, x)
    {
      k := 0;
      while k < |locs| && locs[k] != x
        invariant k <= |locs| && IndexOf(locs, x) == k + IndexOf(locs[k..], x)
      {
        assert locs[k..][1..] == locs[k + 1..];
        k := k + 1;
      }
    }

    // One turn of the displacement loop: the element finds a slot, or pushes another out of one.
    method Turn(e: Element, last: int, lastEpoch: bool, ghost left: nat)
        returns (placed: bool, e': Element, last': int, epoch': bool)
      requires Valid() && left > 0
      modifies table, epoch, collection.mem
      ensures placed ==> Model() == Chain(p, old(Model()), e, last, lastEpoch, left)
      ensures !placed ==>
              Chain(p, Model(), e', last', epoch', left - 1) == Chain(p, old(Model()), e, last, lastEpoch, left)
    {
      hide FindFree, IndexOf, Unpack;
      var locs := p.hashes(e);
      e', last', epoch' := e, last, lastEpoch;
      var free := FindDiscardable(locs);
      placed := free >= 0;
      if placed {
        SetTable(free, e);
        PleaseKeep(free);
        SetEpoch(free, lastEpoch);
      } else {
        var k := Position(locs, last);
        last' := locs[(1 + k) % WIDTH];
        e', epoch' := table[last'], epoch[last'];
        SetTable(last', e);
        SetEpoch(last', lastEpoch);
      }
    }

    method Displace(e0: Element)
      requires Valid()
      modifies table, epoch, collection.mem
      ensures Model() == Chain(p, old(Model()), e0, -1, true, p.depth)
    {
      hide Unpack;
      var e, last, lastEpoch := e0, -1, true;
      for depth := 0 to p.depth
        invariant Chain(p, Model(), e, last, lastEpoch, p.depth - depth)
                  == Chain(p, old(Model()), e0, -1, true, p.depth)
      {
        var placed;
        placed, e, last, lastEpoch := Turn(e, last, lastEpoch, p.depth - depth);
        if placed {
          return;
        }
      }
    }

    method Insert(e: Element)
      requires Valid()
      modifies this, table, epoch, collection.mem
      ensures Model() == Spec.Insert(p, old(Model()), e)
    {
      hide FindElement, Chain, Spec.EpochCheck, Unpack;
      EpochCheck();
      var locs := p.hashes(e);
      var loc := Find(e, locs);
      if loc >= 0 {
        PleaseKeep(loc);
        SetEpoch(loc, true);
        return;
      }
      Displace(e);
    }

    method Contains(e: Element, erase: bool) returns (found: bool)
      requires Valid()
      modifies collection.mem
      ensures found <==> Spec.Contains(p, old(Model()), e)
      ensures Model() == if erase then Erase(p, old(Model()), e) else old(Model())
    {
      hide FindElement;
      var loc := Find(e, p.hashes(e));
      if loc >= 0 {
        if erase {
          AllowErase(loc);
        }
        return true;
      }
      return false;
    }
  }
}
