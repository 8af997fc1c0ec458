/**
 The address manager itself: its indexes are fields, and each method is proved to do what
 AddrOps says on the value they make up. The asserts of the source are asserted.
 */
module AddrManager {
  import opened Options
  import opened AddrTables
  import opened AddrOps
  import T = AddrTables
  import Ops = AddrOps
  import Chance = AddrChance
  import Disk = AddrSerialize

  // The cells of one entry in the first buckets.
  function CellsBelow(news: map<Cell, Id>, n: Id, bucket: nat): set<Cell> {
    set c | c in news && news[c] == n && c.bucket < bucket
  }

  // The next bucket holds the entry in its own position or not at all.
  lemma CellsBelowNext(b: Buckets, info: map<Id, AddrInfo>, news: map<Cell, Id>, n: Id, bucket: nat)
    requires NewOk(b, info, news) && n in info
    ensures var c, below := NewCell(b, info[n].service, bucket), CellsBelow(news, n, bucket);
            && c !in below && (Holds(news - below, c, n) <==> Holds(news, c, n))
            && CellsBelow(news, n, bucket + 1) == (if Holds(news, c, n) then below + {c} else below)
            && news - below - {c} == news - (below + {c})
  {
    var c, below := NewCell(b, info[n].service, bucket), CellsBelow(news, n, bucket);
    assert news - below - {c} == news - (below + {c});
  }

  lemma CellsBelowAll(b: Buckets, info: map<Id, AddrInfo>, news: map<Cell, Id>, n: Id)
    requires NewOk(b, info, news)
    ensures CellsBelow(news, n, 0) == {}
    ensures CellsBelow(news, n, NEW_BUCKETS) == CellsOf(news, n)
    ensures n in info ==> info[n].refCount == |CellsOf(news, n)|
  {
  }

  // The entry taken out of the first buckets.
  ghost function DetachBelow(s: State, n: Id, bucket: nat): State
    requires n in s.info
  {
    var below := CellsBelow(s.news, n, bucket);
    s.(info := s.info[n := s.info[n].(refCount := s.info[n].refCount - |below|)], news := s.news - below)
  }

  lemma DetachNext(b: Buckets, s: State, n: Id, bucket: nat)
    requires NewOk(b, s.info, s.news) && n in s.info
    ensures var s1, c := DetachBelow(s, n, bucket), NewCell(b, s.info[n].service, bucket);
            && n in s1.info && s1.info[n].service == s.info[n].service
            && DetachBelow(s, n, bucket + 1)
            == if Holds(s1.news, c, n) then
                 s1.(info := s1.info[n := s1.info[n].(refCount := s1.info[n].refCount - 1)], news := s1.news - {c})
               else s1
  {
    hide NewOk, CellsBelow, NewCell, Holds;
    CellsBelowNext(b, s.info, s.news, n, bucket);
  }

  lemma DetachEnds(b: Buckets, s: State, n: Id)
    requires NewOk(b, s.info, s.news) && n in s.info
    ensures DetachBelow(s, n, 0) == s && DetachBelow(s, n, NEW_BUCKETS) == T.Detach(s, n)
    ensures n in T.Detach(s, n).info && T.Detach(s, n).info[n].refCount == 0
  {
    hide NewOk, CellsBelow, CellsOf;
    CellsBelowAll(b, s.info, s.news, n);
    assert s.news - {} == s.news && s.info[n := s.info[n]] == s.info;
  }

  class AddrMan {
    const buckets: Buckets
    var mapInfo: map<Id, AddrInfo>
    var mapAddr: map<NetAddr, Id>
    var vRandom: seq<Id>
    var vvTried: map<Cell, Id>
    var vvNew: map<Cell, Id>
    var nTried: int
    var nNew: int
    var nIdCount: nat
    var nLastGood: int
    var triedCollisions: set<Id>

    ghost function Model(): State
      reads this
    {
      State(mapInfo, mapAddr, vRandom, vvTried, vvNew, nTried, nNew, nIdCount, nLastGood, triedCollisions)
    }

    ghost predicate Valid()
      reads this
    {
      BucketsOk(buckets) && Ok(buckets, Model())
    }

    constructor (buckets: Buckets)
      requires BucketsOk(buckets)
      ensures Valid() && Model() == EMPTY && this.buckets == buckets
    {
      this.buckets := buckets;
      mapInfo, mapAddr, vRandom, vvTried, vvNew := map[], map[], [], map[], map[];
      nTried, nNew, nIdCount, nLastGood, triedCollisions := 0, 0, 0, 1, {};
      new;
      EmptyIsOk(buckets);
    }

    method Create(i: AddrInfo) returns (n: Id)
      modifies this
      ensures n == old(nIdCount)
      ensures Model() == T.Create(old(Model()), i).(nNew := old(nNew))
    {
      n := nIdCount;
      nIdCount := nIdCount + 1;
      mapInfo := mapInfo[n := i.(refCount := 0, inTried := false)];
      mapAddr := mapAddr[i.service.net := n];
      mapInfo := mapInfo[n := mapInfo[n].(randomPos := |vRandom|)];
      vRandom := vRandom + [n];
    }

    method SwapRandom(p: nat, q: nat)
      requires RandomOk(mapInfo, vRandom) && p < |vRandom| && q < |vRandom|
      modifies this`mapInfo, this`vRandom
      ensures Model() == T.SwapRandom(old(Model()), p, q)
    {
      if p == q {
        return;
      }
      var m, n := vRandom[p], vRandom[q];
      assert m in mapInfo && n in mapInfo;
      mapInfo := mapInfo[m := mapInfo[m].(randomPos := q)];
      mapInfo := mapInfo[n := mapInfo[n].(randomPos := p)];
      vRandom := vRandom[p := n];
      vRandom := vRandom[q := m];
    }

    method Delete(n: Id)
      requires RandomOk(mapInfo, vRandom) && n in mapInfo && !mapInfo[n].inTried && mapInfo[n].refCount == 0
      modifies this
      ensures Model() == T.Delete(old(Model()), n)
    {
      HasPosition(mapInfo, vRandom, n);
      var net := mapInfo[n].service.net;
      SwapRandom(mapInfo[n].randomPos, |vRandom| - 1);
      vRandom := vRandom[..|vRandom| - 1];
      mapAddr := mapAddr - {net};
      mapInfo := mapInfo - {n};
      nNew := nNew - 1;
    }

    method ClearNew(c: Cell)
      requires RandomOk(mapInfo, vRandom) && NewOk(buckets, mapInfo, vvNew)
      modifies this
      ensures Model() == T.ClearNew(old(Model()), c)
    {
      hide RandomOk, NewOk, T.Delete;
      if c in vvNew {
        var n := vvNew[c];
        OwnerHasRefs(buckets, mapInfo, vvNew, c);
        assert mapInfo[n].refCount > 0;
        var i := mapInfo[n].(refCount := mapInfo[n].refCount - 1);
        RandomKept(mapInfo, vRandom, n, i);
        mapInfo := mapInfo[n := i];
        vvNew := vvNew - {c};
        if mapInfo[n].refCount == 0 {
          Delete(n);
        }
      }
    }

    // The loop of MakeTried over all new buckets.
    method RemoveFromNew(n: Id)
      requires NewOk(buckets, mapInfo, vvNew) && n in mapInfo
      modifies this`mapInfo, this`vvNew
      ensures Model() == T.Detach(old(Model()), n)
    {
      hide NewOk, DetachBelow, T.Detach, NewCell;
      ghost var s := Model();
      DetachEnds(buckets, s, n);
      for bucket := 0 to NEW_BUCKETS
        invariant Model() == DetachBelow(s, n, bucket)
      {
        DetachNext(buckets, s, n, bucket);
        var c := NewCell(buckets, mapInfo[n].service, bucket);
        if Holds(vvNew, c, n) {
          vvNew := vvNew - {c};
          mapInfo := mapInfo[n := mapInfo[n].(refCount := mapInfo[n].refCount - 1)];
        }
      }
      assert mapInfo[n].refCount == 0;
    }

    // The part of MakeTried that sends the holder of a tried cell back to the new table. The entry n that
    // will take the cell is not counted any more.
    method EvictTried(c: Cell, ghost n: Id)
      requires BucketsOk(buckets) && Consistent(buckets, Model().(nNew := nNew + 1), {n}) && c in vvTried
      modifies this
      ensures Model() == Ops.Evict(buckets, old(Model()), c)
      ensures c !in vvTried
    {
      hide RandomOk, AddrOk, TriedOk, NewOk, CountsOk, StampsOk, RefsOk, T.ClearNew, Evict;
      ghost var s := Model();
      UntryIsConsistent(buckets, s.(nNew := nNew + 1), {n}, c);
      var m := vvTried[c];
      assert m in mapInfo;
      var d := IntroducedCell(buckets, mapInfo[m]);
      EvictedState(buckets, s, n, c);
      mapInfo := mapInfo[m := mapInfo[m].(inTried := false)];
      vvTried := vvTried - {c};
      nTried := nTried - 1;
      assert Model() == Untry(s, c).(nNew := Untry(s, c).nNew - 1);
      ClearNewIgnoresCount(Untry(s, c), d, -1);
      ClearNew(d);
      assert d !in vvNew;
      mapInfo := mapInfo[m := mapInfo[m].(refCount := 1)];
      vvNew := vvNew[d := m];
      nNew := nNew + 1;
    }

    method MakeTried(n: Id)
      requires Valid() && n in mapInfo && !mapInfo[n].inTried && mapInfo[n].lastSuccess != 0
      modifies this
      ensures Model() == Ops.MakeTried(buckets, old(Model()), n)
    {
      hide RandomOk, AddrOk, TriedOk, NewOk, CountsOk, StampsOk, RefsOk, Evict, Detach, Ops.MakeTried;
      ghost var s := Model();
      MadeTriedState(buckets, s, n);
      RemoveFromNew(n);
      nNew := nNew - 1;
      assert mapInfo[n].refCount == 0;
      var c := TriedCell(buckets, mapInfo[n].service);
      EvictIgnoresCount(buckets, Detach(s, n), c, -1);
      if c in vvTried {
        EvictTried(c, n);
      } else {
        EvictNothing(buckets, Model(), c);
      }
      assert c !in vvTried;
      vvTried := vvTried[c := n];
      nTried := nTried + 1;
      mapInfo := mapInfo[n := mapInfo[n].(inTried := true)];
    }

    function Find(net: NetAddr): (found: Option<Id>)
      reads this
      ensures found == Lookup(Model(), net)
    {
      if net in mapAddr && mapAddr[net] in mapInfo then Some(mapAddr[net]) else None
    }

    // Looks for a bucket that holds the entry, from a random bucket on.
    method FindBucket(n: Id, start: nat) returns (found: bool)
      requires n in mapInfo
      ensures found == HasNewCell(buckets, Model(), n)
    {
      for k := 0 to NEW_BUCKETS
        invariant forall bucket | 0 <= bucket < NEW_BUCKETS && (bucket - start) % NEW_BUCKETS < k ::
                    !Holds(vvNew, NewCell(buckets, mapInfo[n].service, bucket), n)
      {
        var next := (k + start) % NEW_BUCKETS;
        if Holds(vvNew, NewCell(buckets, mapInfo[n].service, next), n) {
          return true;
        }
        forall bucket | 0 <= bucket < NEW_BUCKETS && (bucket - start) % NEW_BUCKETS == k
          ensures !Holds(vvNew, NewCell(buckets, mapInfo[n].service, bucket), n)
        {
          WrapAround(bucket, start, k);
        }
      }
      return false;
    }

    method Good(a: Service, testBeforeEvict: bool, time: int, start: nat)
      requires Valid() && time > 0
      modifies this
      ensures Valid() && Model() == Ops.Good(buckets, old(Model()), a, testBeforeEvict, time)
    {
      hide Ok, BucketsOk, HasNewCell, Ops.MakeTried;
      ghost var s := Model();
      GoodIsOk(buckets, s, a, testBeforeEvict, time);
      nLastGood := time;
      var found := Find(a.net);
      if found.None? || mapInfo[found.value].service != a {
        return;
      }
      var n := found.value;
      mapInfo := mapInfo[n := mapInfo[n].(lastSuccess := time, lastTry := time, attempts := 0)];
      if mapInfo[n].inTried {
        return;
      }
      StampedIsOk(buckets, s, n, time);
      var hasBucket := FindBucket(n, start);
      if !hasBucket {
        return;
      }
      if testBeforeEvict && TriedCell(buckets, mapInfo[n].service) in vvTried {
        if |triedCollisions| < MAX_COLLISIONS {
          triedCollisions := triedCollisions + {n};
        }
      } else {
        MakeTried(n);
      }
    }

    // The last part of Add.
    method PlaceInNew(n: Id, source: NetAddr, now: int, ghost loose: set<Id>)
      requires BucketsOk(buckets) && Consistent(buckets, Model(), loose) && n in mapInfo && !mapInfo[n].inTried
      requires loose == if mapInfo[n].refCount == 0 then {n} else {}
      modifies this
      ensures Model() == Place(buckets, old(Model()), n, source, now)
    {
      hide RandomOk, AddrOk, TriedOk, NewOk, CountsOk, StampsOk, RefsOk, T.ClearNew, T.Delete, Terrible, IdsOk;
      ghost var s := Model();
      var c := NewCell(buckets, mapInfo[n].service, buckets.introduced(mapInfo[n].service, source));
      ClearNewIsConsistent(buckets, s, loose, c);
      ClearNewFrame(s, c);
      if !Holds(vvNew, c, n) {
        var insert := c !in vvNew;
        if !insert {
          var existing := mapInfo[vvNew[c]];
          insert := Terrible(existing, now) || (existing.refCount > 1 && mapInfo[n].refCount == 0);
        }
        if insert {
          ClearNew(c);
          mapInfo := mapInfo[n := mapInfo[n].(refCount := mapInfo[n].refCount + 1)];
          vvNew := vvNew[c := n];
        } else if mapInfo[n].refCount == 0 {
          Delete(n);
        }
      }
    }

    method AddNew(a: Announced, source: NetAddr, penalty: int, now: int)
      requires Valid() && Find(a.service.net).None?
      modifies this
      ensures Model() == AddNewEntry(buckets, old(Model()), a, source, penalty, now)
    {
      hide Ok, BucketsOk, Place;
      var i := NewInfo(a, source, penalty);
      UnknownIsOk(buckets, Model(), i);
      var n := Create(i);
      nNew := nNew + 1;
      PlaceInNew(n, source, now, {n});
    }

    // `lucky` is the outcome of a draw out of 2 to the power of the reference count.
    method AddKnown(n: Id, a: Announced, source: NetAddr, penalty: int, now: int, lucky: bool)
      requires Valid() && n in mapInfo
      modifies this
      ensures Model() == AddKnownEntry(buckets, old(Model()), n, a, source, penalty, now, lucky)
    {
      hide Ok, BucketsOk, Place, Refresh;
      var i := Refresh(mapInfo[n], a, penalty, now);
      RefreshKeepsPlace(mapInfo[n], a, penalty, now);
      KnownIsOk(buckets, Model(), n, i);
      mapInfo := mapInfo[n := i];
      if a.time == 0 || (i.time != 0 && a.time <= i.time) {
        return;
      }
      if i.inTried {
        return;
      }
      if i.refCount == MAX_REFS {
        return;
      }
      if i.refCount > 0 && !lucky {
        return;
      }
      PlaceInNew(n, source, now, {});
    }

    method Add(a: Announced, source: NetAddr, timePenalty: int, now: int, lucky: bool) returns (isNew: bool)
      requires Valid()
      modifies this
      ensures Valid() && (Model(), isNew) == Ops.Add(buckets, old(Model()), a, source, timePenalty, now, lucky)
    {
      hide Ok, BucketsOk, AddNewEntry, AddKnownEntry;
      AddIsOk(buckets, Model(), a, source, timePenalty, now, lucky);
      if !buckets.routable(a.service.net) {
        return false;
      }
      var found := Find(a.service.net);
      var penalty := if a.service.net == source then 0 else timePenalty;
      if found.Some? {
        AddKnown(found.value, a, source, penalty, now, lucky);
        isNew := false;
      } else {
        AddNew(a, source, penalty, now);
        isNew := true;
      }
    }

    method Attempt(a: Service, countFailure: bool, time: int)
      requires Valid() && time > 0
      modifies this`mapInfo
      ensures Valid() && Model() == Ops.Attempt(old(Model()), a, countFailure, time)
    {
      hide Ok, BucketsOk;
      AttemptIsOk(buckets, Model(), a, countFailure, time);
      var found := Find(a.net);
      if found.None? || mapInfo[found.value].service != a {
        return;
      }
      var n := found.value;
      var i := mapInfo[n].(lastTry := time);
      if countFailure && i.lastCountAttempt < nLastGood {
        i := i.(lastCountAttempt := time, attempts := i.attempts + 1);
      }
      mapInfo := mapInfo[n := i];
    }

    method Connected(a: Service, time: int)
      requires Valid()
      modifies this`mapInfo
      ensures Valid() && Model() == Ops.Connected(old(Model()), a, time)
    {
      hide Ok, BucketsOk;
      ConnectedIsOk(buckets, Model(), a, time);
      var found := Find(a.net);
      if found.None? || mapInfo[found.value].service != a {
        return;
      }
      if time - mapInfo[found.value].time > 20 * MINUTE {
        mapInfo := mapInfo[found.value := mapInfo[found.value].(time := time)];
      }
    }

    method SetServices(a: Service, services: set<nat>)
      requires Valid()
      modifies this`mapInfo
      ensures Valid() && Model() == Ops.SetServices(old(Model()), a, services)
    {
      hide Ok, BucketsOk;
      SetServicesIsOk(buckets, Model(), a, services);
      var found := Find(a.net);
      if found.None? || mapInfo[found.value].service != a {
        return;
      }
      mapInfo := mapInfo[found.value := mapInfo[found.value].(services := services)];
    }

    // A share of the entries, drawn without repetition and leaving out the terrible ones.
    method GetAddr(now: int) returns (addrs: seq<Service>, ghost draws: seq<nat>)
      requires Valid()
      modifies this`mapInfo, this`vRandom
      ensures Valid() && |draws| <= |vRandom| == |old(vRandom)| && Model() == Shuffle(old(Model()), draws)
      ensures addrs == Kept(mapInfo, vRandom[..|draws|], now)
      ensures |addrs| <= 23 * |vRandom| / 100 && |addrs| <= 2500
      ensures |addrs| == 23 * |vRandom| / 100 || |addrs| == 2500 || |draws| == |vRandom|
      ensures forall k | 0 <= k < |draws| :: k <= draws[k] < |vRandom|
    {
      hide Ok, BucketsOk, Kept, T.SwapRandom;
      var nodes := 23 * |vRandom| / 100;
      if nodes > 2500 {
        nodes := 2500;
      }
      addrs, draws := [], [];
      KeptIgnoresPositions(mapInfo, mapInfo, [], now);
      var n := 0;
      while n < |vRandom| && |addrs| < nodes
        invariant 0 <= n == |draws| <= |vRandom| == |old(vRandom)| && |addrs| <= nodes
        invariant Valid() && Model() == Shuffle(old(Model()), draws)
        invariant addrs == Kept(mapInfo, vRandom[..n], now)
        invariant forall k | 0 <= k < |draws| :: k <= draws[k] < |vRandom|
      {
        var r: nat :| n <= r < |vRandom|;
        assert (draws + [r])[..n] == draws;
        addrs := DrawOne(n, r, addrs, now);
        draws := draws + [r];
        n := n + 1;
      }
    }

    // One turn of the loop of GetAddr: swaps place r to place n and takes the entry unless it is terrible.
    method DrawOne(n: nat, r: nat, addrs: seq<Service>, now: int) returns (more: seq<Service>)
      requires Valid() && n <= r < |vRandom| && addrs == Kept(mapInfo, vRandom[..n], now)
      modifies this`mapInfo, this`vRandom
      ensures Valid() && |vRandom| == |old(vRandom)| && Model() == T.SwapRandom(old(Model()), n, r)
      ensures more == Kept(mapInfo, vRandom[..n + 1], now) && |more| <= |addrs| + 1
    {
      hide Ok, BucketsOk, Terrible, Kept, T.SwapRandom, RandomOk;
      SwapIsOk(buckets, Model(), n, r);
      OkHasRandom(buckets, Model());
      KeptAfterSwap(buckets, Model(), n, r, now);
      SwapRandom(n, r);
      OkHasRandom(buckets, Model());
      RandomAt(mapInfo, vRandom, n);
      more := addrs;
      if !Terrible(mapInfo[vRandom[n]], now) {
        more := more + [mapInfo[vRandom[n]].service];
      }
    }

    method ResolveCollisions(now: int) returns (ghost order: seq<Id>)
      requires Valid() && now > 0
      modifies this
      ensures Valid() && Model() == Resolve(buckets, old(Model()), order, now)
      ensures forall n :: n in order <==> n in old(triedCollisions)
      ensures forall i, j | 0 <= i < j < |order| :: order[i] < order[j]
    {
      hide Ok, BucketsOk, ResolveOne, Ops.Good;
      order := [];
      var left := triedCollisions;
      while left != {}
        invariant Valid() && Model() == Resolve(buckets, old(Model()), order, now)
        invariant left <= old(triedCollisions)
        invariant forall n :: n in order <==> n in old(triedCollisions) - left
        invariant forall i, j | 0 <= i < j < |order| :: order[i] < order[j]
        invariant forall i, m | 0 <= i < |order| && m in left :: order[i] < m
      {
        var n := Least(left);
        ResolveOneIsOk(buckets, Model(), n, now);
        ResolveCollision(n, now);
        assert (order + [n])[..|order|] == order;
        order := order + [n];
        left := left - {n};
      }
    }

    method ResolveCollision(n: Id, now: int)
      requires Valid() && now > 0
      modifies this
      ensures Model() == ResolveOne(buckets, old(Model()), n, now)
    {
      hide Ok, BucketsOk, Ops.Good;
      var erase := false;
      if n !in mapInfo {
        erase := true;
      } else {
        var i := mapInfo[n];
        var c := TriedCell(buckets, i.service);
        if !buckets.valid(i.service.net) {
          erase := true;
        } else if c in vvTried {
          TriedHolders(buckets, Model(), c);
          var j := mapInfo[vvTried[c]];
          if now - j.lastSuccess < 4 * HOUR {
            erase := true;
          } else if now - j.lastTry < 4 * HOUR {
            if now - j.lastTry > 60 {
              Good(i.service, false, now, 0);
              erase := true;
            }
          } else if now - i.lastSuccess > 40 * MINUTE {
            Good(i.service, false, now, 0);
            erase := true;
          }
        } else {
          Good(i.service, false, now, 0);
          erase := true;
        }
      }
      if erase {
        triedCollisions := triedCollisions - {n};
      }
    }

    // The tried entry that a waiting one would replace; the source indexes it without a check.
    method SelectTriedCollision() returns (r: Option<AddrInfo>, ghost n: Id)
      requires Valid()
      modifies this`triedCollisions
      ensures Valid()
      ensures old(triedCollisions) == {} ==> r.None? && Model() == old(Model())
      ensures old(triedCollisions) != {} ==> n in old(triedCollisions) && Model() == SelectCollision(old(Model()), n)
      ensures old(triedCollisions) != {} && n in mapInfo ==> r.Some?
      ensures r.Some? ==>
                && n in mapInfo
                && Holds(vvTried, TriedCell(buckets, r.value.service), vvTried[TriedCell(buckets, mapInfo[n].service)])
      ensures r.Some? ==>
              r.value.inTried && TriedCell(buckets, r.value.service) == TriedCell(buckets, mapInfo[n].service)
    {
      n := 0;
      if triedCollisions == {} {
        return None, 0;
      }
      var drawn :| drawn in triedCollisions;
      n := drawn;
      if drawn !in mapInfo {
        ErasedIsOk(buckets, Model(), drawn);
        triedCollisions := triedCollisions - {drawn};
        return None, drawn;
      }
      CollisionHasHolder(buckets, Model(), drawn);
      var c := TriedCell(buckets, mapInfo[drawn].service);
      r := Some(mapInfo[vvTried[c]]);
    }

    // Draws from a table until an entry is taken. The probing of the source ends on some filled cell; the roll and the
    // time are left open too. Refusals make the next entry likelier, and there are at most 44 of them.
    method DrawFrom(table: map<Cell, Id>) returns (n: Id, ghost refusals: nat)
      requires table != map[] && forall c | c in table :: table[c] in mapInfo
      ensures n in table.Values && refusals <= Chance.PATIENCE
    {
      hide Chance.GetChance;
      var factor := 1.0;
      refusals := 0;
      while true
        invariant factor == Chance.RealPow(1.2, refusals) && refusals <= Chance.PATIENCE
        decreases Chance.PATIENCE - refusals
      {
        var c :| c in table;
        n := table[c];
        var roll: nat :| roll < Chance.ROLLS;
        var now: int := *;
        if refusals == Chance.PATIENCE { Chance.TakenInTheEnd(mapInfo[n], now, refusals, roll); }
        if roll as real < factor * Chance.GetChance(mapInfo[n], now) * (Chance.ROLLS as real) {
          return;
        }
        factor := factor * 1.2;
        refusals := refusals + 1;
      }
    }

    method Select(newOnly: bool) returns (r: Option<AddrInfo>, ghost refusals: nat)
      requires Valid()
      ensures r.None? <==> mapInfo == map[] || (newOnly && forall n | n in mapInfo :: mapInfo[n].inTried)
      ensures r.Some? ==> r.value in mapInfo.Values && (newOnly ==> !r.value.inTried)
      ensures refusals <= Chance.PATIENCE
    {
      hide Ok;
      SelectFinds(buckets, Model());
      SelectKinds(buckets, Model());
      refusals := 0;
      if |vRandom| == 0 {
        return None, 0;
      }
      if newOnly && nNew == 0 {
        return None, 0;
      }
      var coin: bool := *;
      var n;
      if !newOnly && nTried > 0 && (nNew == 0 || coin) {
        n, refusals := DrawFrom(vvTried);
      } else {
        n, refusals := DrawFrom(vvNew);
      }
      assert n in mapInfo;
      r := Some(mapInfo[n]);
    }

    // The keys of the entries come in the order of the map. The asserts of the source are on the counts.
    method SaveInfos(ids: seq<Id>)
        returns (newInfos: seq<Disk.Saved>, triedInfos: seq<Disk.Saved>, unkIds: map<Id, int>)
      requires Valid() && Disk.IsKeyOrder(ids, mapInfo)
      ensures newInfos == Disk.SavedNew(mapInfo, ids) && triedInfos == Disk.SavedTried(mapInfo, ids)
      ensures unkIds == Disk.Indices(mapInfo, ids)
    {
      hide Ok, Disk.SavedNew, Disk.SavedTried, Disk.Indices;
      NothingSaved(mapInfo);
      SavedCounts(buckets, Model(), ids);
      newInfos, triedInfos, unkIds := [], [], map[];
      for i := 0 to |ids|
        invariant newInfos == Disk.SavedNew(mapInfo, ids[..i]) && unkIds == Disk.Indices(mapInfo, ids[..i])
      {
        var n := ids[i];
        assert n in mapInfo;
        Disk.SavedNext(mapInfo, ids, i);
        Disk.SavedGrows(mapInfo, ids, i + 1);
        unkIds := unkIds[n := |newInfos|];
        if mapInfo[n].refCount != 0 {
          assert |newInfos| != nNew;
          newInfos := newInfos + [Disk.Save(mapInfo[n])];
        }
      }
      for i := 0 to |ids|
        invariant triedInfos == Disk.SavedTried(mapInfo, ids[..i])
      {
        var n := ids[i];
        assert n in mapInfo;
        Disk.SavedNext(mapInfo, ids, i);
        Disk.SavedGrows(mapInfo, ids, i + 1);
        if mapInfo[n].inTried {
          assert |triedInfos| != nTried;
          triedInfos := triedInfos + [Disk.Save(mapInfo[n])];
        }
      }
      assert ids[..|ids|] == ids;
    }

    method Serialize(ids: seq<Id>) returns (t: Disk.Stream)
      requires Valid() && Disk.IsKeyOrder(ids, mapInfo)
      ensures t == Disk.Serialize(Model(), ids) && Disk.WellFormed(t)
    {
      hide Ok, BucketsOk, Disk.SavedNew, Disk.SavedTried, Disk.Indices;
      var newInfos, triedInfos, unkIds := SaveInfos(ids);
      var lists: seq<seq<int>> := [];
      for bucket := 0 to NEW_BUCKETS
        invariant lists == Disk.SaveBuckets(vvNew, unkIds, bucket)
      {
        var list: seq<int> := [];
        for i := 0 to BUCKET_SIZE
          invariant list == Disk.IndexAll(unkIds, Disk.Entries(vvNew, bucket, i))
        {
          if Cell(bucket, i) in vvNew {
            var n := vvNew[Cell(bucket, i)];
            list := list + [if n in unkIds then unkIds[n] else 0];
          }
        }
        lists := lists + [list];
      }
      t := Disk.Stream(Disk.VERSION, Disk.KEY_SIZE, nNew, nTried, newInfos, triedInfos, lists);
      Disk.RoundTrip(buckets, Model(), ids);
    }

    // One entry of the new table; without usable bucket lists it is placed at once.
    method LoadNewOne(n: nat, x: Disk.Saved, usable: bool, ghost s: State)
      requires Model() == s.(nNew := nNew, nTried := nTried, idCount := 0)
      modifies this
      ensures nNew == old(nNew) && nTried == old(nTried)
      ensures var s1 := Disk.LoadNewOne(s, n, x);
              var s2 := if usable then s1 else Disk.PlaceOne(buckets, s1, n);
              Model() == s2.(nNew := nNew, nTried := nTried, idCount := 0)
    {
      mapInfo := mapInfo[n := Disk.Restore(x, |vRandom|)];
      mapAddr := mapAddr[x.service.net := n];
      vRandom := vRandom + [n];
      if !usable {
        var c := IntroducedCell(buckets, mapInfo[n]);
        if c !in vvNew {
          vvNew := vvNew[c := n];
          mapInfo := mapInfo[n := mapInfo[n].(refCount := mapInfo[n].refCount + 1)];
        }
      }
    }

    method LoadNew(xs: seq<Disk.Saved>, usable: bool)
      requires Model() == EMPTY.(nNew := nNew, nTried := nTried)
      modifies this
      ensures Model() == Disk.LoadFirst(buckets, xs, usable).(nNew := old(nNew), nTried := old(nTried))
    {
      hide Disk.LoadNewOne, Disk.PlaceOne;
      for n := 0 to |xs|
        invariant nNew == old(nNew) && nTried == old(nTried)
        invariant Model() == Disk.LoadFirst(buckets, xs[..n], usable).(nNew := nNew, nTried := nTried, idCount := 0)
      {
        assert xs[..n + 1][..n] == xs[..n];
        LoadNewOne(n, xs[n], usable, Disk.LoadFirst(buckets, xs[..n], usable));
      }
      assert xs[..|xs|] == xs;
      Disk.LoadFirstNumbers(buckets, xs, usable);
      nIdCount := |xs|;
    }

    method LoadTriedOne(x: Disk.Saved, ghost placedBefore: int) returns (placed: bool)
      modifies this
      ensures nTried == old(nTried)
      ensures Model().(nTried := placedBefore + if placed then 1 else 0)
           == Disk.LoadTriedOne(buckets, old(Model()).(nTried := placedBefore), x)
    {
      var c := TriedCell(buckets, x.service);
      placed := c !in vvTried;
      if placed {
        mapInfo := mapInfo[nIdCount := Disk.Restore(x, |vRandom|).(inTried := true)];
        vRandom := vRandom + [nIdCount];
        mapAddr := mapAddr[x.service.net := nIdCount];
        vvTried := vvTried[c := nIdCount];
        nIdCount := nIdCount + 1;
      }
    }

    method LoadTried(xs: seq<Disk.Saved>)
      requires nTried == |xs|
      modifies this
      ensures Model() == Disk.LoadTried(buckets, old(Model()).(nTried := 0), xs)
    {
      ghost var s := Model().(nTried := 0);
      var lost := 0;
      hide Disk.LoadTriedOne;
      for n := 0 to |xs|
        invariant nTried == |xs|
        invariant Model().(nTried := n - lost) == Disk.LoadTried(buckets, s, xs[..n])
      {
        assert xs[..n + 1][..n] == xs[..n];
        var placed := LoadTriedOne(xs[n], n - lost);
        if !placed {
          lost := lost + 1;
        }
      }
      assert xs[..|xs|] == xs;
      nTried := nTried - lost;
    }

    method LoadCell(bucket: nat, index: int)
      requires forall k: Id | k < nNew :: k in mapInfo
      modifies this`mapInfo, this`vvNew
      ensures Model() == Disk.LoadCell(buckets, old(Model()), bucket, index)
    {
      if 0 <= index < nNew {
        var c := NewCell(buckets, mapInfo[index].service, bucket);
        if c !in vvNew && mapInfo[index].refCount < MAX_REFS {
          mapInfo := mapInfo[index := mapInfo[index].(refCount := mapInfo[index].refCount + 1)];
          vvNew := vvNew[c := index];
        }
      }
    }

    method LoadBucket(bucket: nat, list: seq<int>)
      requires RandomOk(mapInfo, vRandom) && forall k: Id | k < nNew :: k in mapInfo
      modifies this`mapInfo, this`vvNew
      ensures Model() == Disk.LoadBucket(buckets, old(Model()), bucket, list)
    {
      hide RandomOk, Disk.LoadCell;
      ghost var s := Model();
      for n := 0 to |list|
        invariant Model() == Disk.LoadBucket(buckets, s, bucket, list[..n])
      {
        assert list[..n + 1][..n] == list[..n];
        Disk.LoadBucketNumbers(buckets, s, bucket, list[..n]);
        assert forall k: Id | k < nNew :: k in s.info;
        LoadCell(bucket, list[n]);
      }
      assert list[..|list|] == list;
    }

    // Without usable lists the loop goes over them and does nothing.
    method LoadBuckets(lists: seq<seq<int>>, usable: bool)
      requires RandomOk(mapInfo, vRandom) && forall k: Id | k < nNew :: k in mapInfo
      modifies this`mapInfo, this`vvNew
      ensures Model() == if usable then Disk.LoadBuckets(buckets, old(Model()), lists) else old(Model())
    {
      if !usable {
        return;
      }
      hide RandomOk, Disk.LoadBucket;
      ghost var s := Model();
      for bucket := 0 to |lists|
        invariant Model() == Disk.LoadBuckets(buckets, s, lists[..bucket])
      {
        assert lists[..bucket + 1][..bucket] == lists[..bucket];
        Disk.LoadBucketsNumbers(buckets, s, lists[..bucket]);
        assert forall k: Id | k < nNew :: k in s.info;
        LoadBucket(bucket, lists[bucket]);
      }
      assert lists[..|lists|] == lists;
    }

    method Prune()
      requires RandomOk(mapInfo, vRandom)
      modifies this
      ensures Model() == Disk.Prune(old(Model()), old(nIdCount))
    {
      hide RandomOk, T.Delete;
      ghost var s := Model();
      for n := 0 to nIdCount
        invariant Model() == Disk.Prune(s, n) && nIdCount == s.idCount
      {
        Disk.PruneNumbers(s, n);
        if n in mapInfo && !mapInfo[n].inTried && mapInfo[n].refCount == 0 {
          DeleteKeepsCount(Model(), n);
          Delete(n);
        }
      }
    }

    // Into a fresh manager. A key of another size is refused.
    method Unserialize(t: Disk.Stream) returns (thrown: bool)
      requires Model() == EMPTY && Disk.WellFormed(t)
      modifies this
      ensures thrown <==> t.keySize != Disk.KEY_SIZE
      ensures Model() == if thrown then EMPTY else Disk.Unserialize(buckets, t)
    {
      hide RandomOk, Disk.LoadFirst, Disk.LoadTried, Disk.LoadBuckets, Disk.Prune;
      if t.keySize != Disk.KEY_SIZE {
        return true;
      }
      thrown := false;
      nNew, nTried := t.nNew, t.nTried;
      var usable := t.version == Disk.VERSION && |t.buckets| == NEW_BUCKETS;
      ghost var s0 := Disk.LoadFirst(buckets, t.newInfos, usable);
      Disk.LoadFirstNumbers(buckets, t.newInfos, usable);
      Disk.LoadTriedNumbers(buckets, s0, t.triedInfos);
      Disk.LoadBucketsNumbers(buckets, Disk.LoadTried(buckets, s0, t.triedInfos), t.buckets);
      LoadNew(t.newInfos, usable);
      LoadTried(t.triedInfos);
      assert forall k: Id | k < nNew :: k in s0.info.Keys;
      LoadBuckets(t.buckets, usable);
      Prune();
    }
  }

  method Least(s: set<Id>) returns (n: Id)
    requires s != {}
    ensures n in s && forall m | m in s :: n <= m
  {
    n :| n in s;
    var left := s - {n};
    while left != {}
      invariant n in s && left <= s
      invariant forall m | m in s && m !in left :: n <= m
    {
      var m :| m in left;
      if m < n {
        n := m;
      }
      left := left - {m};
    }
  }

  lemma OkHasRandom(b: Buckets, s: State)
    requires Ok(b, s)
    ensures RandomOk(s.info, s.random)
    ensures forall i | 0 <= i < |s.random| :: s.random[i] in s.info
  {
  }

  lemma TriedHolders(b: Buckets, s: State, c: Cell)
    requires Ok(b, s) && c in s.tried
    ensures s.tried[c] in s.info
  {
  }

  lemma WrapAround(bucket: nat, start: nat, k: nat)
    requires bucket < NEW_BUCKETS && (bucket - start) % NEW_BUCKETS == k
    ensures (k + start) % NEW_BUCKETS == bucket
  {
  }

  lemma KeptAfterSwap(b: Buckets, s: State, n: nat, r: nat, now: int)
    requires Ok(b, s) && n <= r < |s.random|
    ensures var s' := T.SwapRandom(s, n, r);
            && |s'.random| == |s.random| && s'.random[n] in s'.info
            && Kept(s'.info, s'.random[..n + 1], now)
            == Kept(s.info, s.random[..n], now)
                + (if Terrible(s'.info[s'.random[n]], now) then [] else [s'.info[s'.random[n]].service])
  {
    hide Ok, Evolves, Terrible, SameButPositions;
    var s' := T.SwapRandom(s, n, r);
    SwapIsOk(b, s, n, r);
    OkHasRandom(b, s');
    assert s'.random[..n] == s.random[..n] && s'.random[..n + 1][..n] == s'.random[..n];
    KeptIgnoresPositions(s.info, s'.info, s.random[..n], now);
  }

  lemma RefreshKeepsPlace(i: AddrInfo, a: Announced, penalty: int, now: int)
    ensures var j := Refresh(i, a, penalty, now);
            SamePlace(j, i) && j.lastTry == i.lastTry && j.lastSuccess == i.lastSuccess
  {
  }

  lemma StampedIsOk(b: Buckets, s: State, n: Id, time: int)
    requires Ok(b, s) && n in s.info && time > 0
    ensures Ok(b, Touch(s, n, s.info[n].(lastSuccess := time, lastTry := time, attempts := 0)).(lastGood := time))
  {
    hide RandomOk, AddrOk, TriedOk, NewOk, CountsOk, StampsOk, RefsOk;
    TouchIsConsistent(b, s, {}, n, s.info[n].(lastSuccess := time, lastTry := time, attempts := 0));
  }

  lemma KnownIsOk(b: Buckets, s: State, n: Id, i: AddrInfo)
    requires Ok(b, s) && n in s.info && SamePlace(i, s.info[n]) && i.lastTry == s.info[n].lastTry &&
             i.lastSuccess == s.info[n].lastSuccess
    ensures Consistent(b, Touch(s, n, i), {}) && (!i.inTried ==> i.refCount != 0)
  {
    HasStamps(b, s, n);
    TouchIsConsistent(b, s, {}, n, i);
  }

  lemma UnknownIsOk(b: Buckets, s: State, i: AddrInfo)
    requires Ok(b, s) && Lookup(s, i.service.net).None? && i.lastTry >= 0 && i.lastSuccess >= 0
    ensures Consistent(b, T.Create(s, i), {s.idCount})
    ensures var j := i.(refCount := 0, inTried := false, randomPos := |s.random|);
            T.Create(s, i).info == s.info[s.idCount := j]
  {
    CreateIsConsistent(b, s, i);
  }

  // What moving an entry to the tried table comes down to, step by step.
  lemma MadeTriedState(b: Buckets, s: State, n: Id)
    requires BucketsOk(b) && Consistent(b, s, {}) && n in s.info && !s.info[n].inTried
    ensures var c, s1 := TriedCell(b, s.info[n].service), Detach(s, n);
            var s2 := Evict(b, s1, c);
            && Consistent(b, s1, {n}) && n in s1.info && s1.info[n] == s.info[n].(refCount := 0)
            && n in s2.info && c !in s2.tried
            && Ops.MakeTried(b, s, n)
               == s2.(info := s2.info[n := s2.info[n].(inTried := true)], tried := s2.tried[c := n],
                                             nTried := s2.nTried + 1, nNew := s2.nNew - 1)
  {
    hide RandomOk, AddrOk, TriedOk, NewOk, CountsOk, StampsOk, RefsOk, Evict;
    DetachIsConsistent(b, s, n);
    var c, s1 := TriedCell(b, s.info[n].service), Detach(s, n);
    if c in s1.tried { EvictIsConsistent(b, s1, n, c); } else { EvictNothing(b, s1, c); }
  }

  lemma NothingSaved(info: map<Id, AddrInfo>)
    ensures Disk.SavedNew(info, []) == [] && Disk.SavedTried(info, []) == [] && Disk.Indices(info, []) == map[]
  {
  }

  lemma SavedCounts(b: Buckets, s: State, ids: seq<Id>)
    requires Ok(b, s) && Disk.IsKeyOrder(ids, s.info)
    ensures |Disk.SavedNew(s.info, ids)| == s.nNew && |Disk.SavedTried(s.info, ids)| == s.nTried
  {
    hide Ok;
    Disk.SerializeCounts(b, s, ids);
  }

  lemma DeleteKeepsCount(s: State, n: Id)
    ensures T.Delete(s, n).idCount == s.idCount
  {
  }

  lemma SwapIgnoresCount(s: State, p: int, q: int, k: int)
    ensures T.SwapRandom(s.(nNew := s.nNew + k), p, q) == T.SwapRandom(s, p, q).(nNew := s.nNew + k)
    ensures T.SwapRandom(s, p, q).nNew == s.nNew
  {
  }

  lemma DeleteIgnoresCount(s: State, n: Id, k: int)
    ensures T.Delete(s.(nNew := s.nNew + k), n) == T.Delete(s, n).(nNew := T.Delete(s, n).nNew + k)
  {
    hide T.SwapRandom;
    if n in s.info { SwapIgnoresCount(s, s.info[n].randomPos, |s.random| - 1, k); }
  }

  lemma ClearNewIgnoresCount(s: State, c: Cell, k: int)
    ensures T.ClearNew(s.(nNew := s.nNew + k), c) == T.ClearNew(s, c).(nNew := T.ClearNew(s, c).nNew + k)
  {
    hide T.Delete;
    if c in s.news { DeleteIgnoresCount(DropRef(s, c), s.news[c], k); }
  }

  lemma EvictIgnoresCount(b: Buckets, s: State, c: Cell, k: int)
    ensures Evict(b, s.(nNew := s.nNew + k), c) == Evict(b, s, c).(nNew := Evict(b, s, c).nNew + k)
  {
    hide T.ClearNew;
    if c in s.tried && s.tried[c] in s.info {
      ClearNewIgnoresCount(Untry(s, c), IntroducedCell(b, s.info[s.tried[c]]), k);
    }
  }

  lemma EvictNothing(b: Buckets, s: State, c: Cell)
    requires c !in s.tried
    ensures Evict(b, s, c) == s
  {
  }

  // What evicting comes down to, step by step, when n has been detached and is not counted.
  lemma EvictedState(b: Buckets, s: State, n: Id, c: Cell)
    requires BucketsOk(b) && Consistent(b, s.(nNew := s.nNew + 1), {n}) && c in s.tried
    ensures s.tried[c] in s.info
    ensures var m := s.tried[c]; var s2, d := Untry(s, c), IntroducedCell(b, s.info[m]);
            var s3 := T.ClearNew(s2, d);
            && RandomOk(s2.info, s2.random) && NewOk(b, s2.info, s2.news)
            && m in s3.info && d !in s3.news && s3.tried == s2.tried
            && Evict(b, s, c) == s3.(info := s3.info[m := s3.info[m].(refCount := 1)], news := s3.news[d := m])
  {
    hide RandomOk, AddrOk, TriedOk, NewOk, CountsOk, StampsOk, T.ClearNew;
    UntryIsConsistent(b, s.(nNew := s.nNew + 1), {n}, c);
    var m := s.tried[c];
    var s2, d := Untry(s, c), IntroducedCell(b, s.info[m]);
    ClearNewIgnoresCount(s2, d, 1);
    ClearNewIsConsistent(b, s2.(nNew := s2.nNew + 1), {n} + {m}, d);
    ClearNewFrame(s2, d);
    assert m in {n} + {m};
  }
}
