/**
 Reading a stream that no manager wrote: repeated addresses, stamps that do not fit, indices out
 of range, entries that no bucket list names, another version or number of buckets. Everything
 but the address index and the stamps comes out right (UnserializeOkIff says exactly when all does).
 */
module AddrForeign {
  import opened AddrTables
  import opened AddrSerialize
  import AddrOps

  /* ----- What every loaded entry keeps ----- */

  // The conditions of Check_ that hold while entries are read, whatever the stream says.
  ghost predicate TablesOk(b: Buckets, s: State) {
    && RandomOk(s.info, s.random) && TriedOk(b, s.info, s.tried) && NewOk(b, s.info, s.news)
    && CountsOk(s.info, s.nTried, s.nNew) && IdsOk(s) && FewRefs(s.info) && s.collisions == {}
  }

  predicate FewRefs(info: map<Id, AddrInfo>) {
    forall n | n in info :: info[n].refCount <= MAX_REFS
  }

  // Every entry's address is in the index, which leads to an entry of that address.
  predicate Indexed(s: State) {
    && (forall n | n in s.info :: s.info[n].service.net in s.addr)
    && (forall a | a in s.addr :: s.addr[a] in s.info && s.info[s.addr[a]].service.net == a)
  }

  ghost predicate Loaded(b: Buckets, s: State) {
    TablesOk(b, s) && Indexed(s)
  }

  lemma EmptyIsLoaded(b: Buckets)
    ensures Loaded(b, EMPTY)
  {
  }

  lemma NewOneIsLoaded(b: Buckets, s: State, x: Saved)
    requires Loaded(b, s)
    ensures Loaded(b, LoadNewOne(s, s.idCount, x))
  {
    hide RandomOk, TriedOk, NewOk, CountsOk;
    var n, i := s.idCount, Restore(x, |s.random|);
    RandomCreated(s.info, s.random, n, i);
    TablesCreated(b, s.info, s.tried, s.news, n, i);
    CountsCreated(s.info, s.nTried, s.nNew, n, i);
  }

  lemma NewCreated(b: Buckets, info: map<Id, AddrInfo>, news: map<Cell, Id>, n: Id, i: AddrInfo)
    requires NewOk(b, info, news) && n !in info && i.refCount == 0
    ensures NewOk(b, info[n := i], news)
  {
    assert CellsOf(news, n) == {};
  }

  lemma TriedCounted(info: map<Id, AddrInfo>, nTried: int, nNew: int, n: Id, i: AddrInfo)
    requires CountsOk(info, nTried, nNew) && n !in info && i.inTried
    ensures CountsOk(info[n := i], nTried + 1, nNew)
  {
    assert TriedIds(info[n := i]) == TriedIds(info) + {n} && NewIds(info[n := i]) == NewIds(info);
  }

  lemma TriedOneIsLoaded(b: Buckets, s: State, x: Saved)
    requires Loaded(b, s)
    ensures Loaded(b, LoadTriedOne(b, s, x))
  {
    hide RandomOk, TriedOk, NewOk, CountsOk, TriedCell;
    if TriedCell(b, x.service) !in s.tried {
      var n, i := s.idCount, Restore(x, |s.random|).(inTried := true);
      RandomCreated(s.info, s.random, n, i);
      TriedCreated(b, s.info, s.tried, n, i);
      NewCreated(b, s.info, s.news, n, i);
      TriedCounted(s.info, s.nTried, s.nNew, n, i);
    }
  }

  lemma IndexKept(s: State, n: Id, c: Cell)
    requires Indexed(s) && n in s.info
    ensures Indexed(Attach(s, n, c))
  {
  }

  lemma AttachIsLoaded(b: Buckets, s: State, n: Id, c: Cell)
    requires Loaded(b, s) && n in s.info && !s.info[n].inTried && s.info[n].refCount < MAX_REFS
    requires c !in s.news && c.bucket < NEW_BUCKETS && c == NewCell(b, s.info[n].service, c.bucket)
    ensures Loaded(b, Attach(s, n, c))
  {
    hide RandomOk, TriedOk, NewOk, CountsOk, NewCell, Indexed;
    var i := s.info[n].(refCount := s.info[n].refCount + 1);
    IndexKept(s, n, c);
    NewAttached(b, s.info, s.news, n, c, i);
    RandomKept(s.info, s.random, n, i);
    TriedKept(b, s.info, s.tried, n, i);
    CountsKept(s.info, s.nTried, s.nNew, n, i);
  }

  // The first entries are new, in the order of the stream.
  ghost predicate FirstAreNew(s: State, m: nat) {
    s.nNew == m && forall k: Id | k < m :: k in s.info && !s.info[k].inTried
  }

  lemma NewOneKeepsFirst(s: State, x: Saved, m: nat)
    requires FirstAreNew(s, m) && s.idCount == m
    ensures var s' := LoadNewOne(s, m, x); FirstAreNew(s', m + 1) && s'.idCount == m + 1
  {
  }

  lemma {:induction false} LoadNewIsLoaded(b: Buckets, xs: seq<Saved>)
    ensures Loaded(b, LoadNew(xs)) && FirstAreNew(LoadNew(xs), |xs|) && LoadNew(xs).idCount == |xs|
  {
    if xs == [] {
      EmptyIsLoaded(b);
    } else {
      hide Loaded, FirstAreNew, LoadNewOne;
      var init := xs[..|xs| - 1];
      LoadNewIsLoaded(b, init);
      NewOneIsLoaded(b, LoadNew(init), xs[|xs| - 1]);
      NewOneKeepsFirst(LoadNew(init), xs[|xs| - 1], |init|);
    }
  }

  lemma PlaceOneKeepsFirst(b: Buckets, s: State, n: Id, m: nat)
    requires FirstAreNew(s, m) && n in s.info
    ensures FirstAreNew(PlaceOne(b, s, n), m) && PlaceOne(b, s, n).idCount == s.idCount
  {
    hide AddrOps.IntroducedCell;
  }

  lemma PlaceOneIsLoaded(b: Buckets, s: State, n: Id)
    requires BucketsOk(b) && Loaded(b, s) && n in s.info && !s.info[n].inTried && s.info[n].refCount == 0
    ensures Loaded(b, PlaceOne(b, s, n))
  {
    hide Loaded;
    var c := AddrOps.IntroducedCell(b, s.info[n]);
    assert c.bucket < NEW_BUCKETS && c == NewCell(b, s.info[n].service, c.bucket);
    if c !in s.news { AttachIsLoaded(b, s, n, c); }
  }

  lemma {:induction false} LoadPlacedIsLoaded(b: Buckets, xs: seq<Saved>)
    requires BucketsOk(b)
    ensures Loaded(b, LoadPlaced(b, xs)) && FirstAreNew(LoadPlaced(b, xs), |xs|) && LoadPlaced(b, xs).idCount == |xs|
  {
    if xs == [] {
      EmptyIsLoaded(b);
    } else {
      hide Loaded, FirstAreNew, PlaceOne, BucketsOk;
      var init, x := xs[..|xs| - 1], xs[|xs| - 1];
      var s := LoadPlaced(b, init);
      LoadPlacedIsLoaded(b, init);
      NewOneIsLoaded(b, s, x);
      NewOneKeepsFirst(s, x, |init|);
      PlaceOneIsLoaded(b, LoadNewOne(s, |init|, x), |init|);
      PlaceOneKeepsFirst(b, LoadNewOne(s, |init|, x), |init|, |xs|);
    }
  }

  lemma {:induction false} LoadTriedIsLoaded(b: Buckets, s: State, xs: seq<Saved>, m: nat)
    requires Loaded(b, s) && FirstAreNew(s, m)
    ensures Loaded(b, LoadTried(b, s, xs)) && FirstAreNew(LoadTried(b, s, xs), m)
  {
    if xs != [] {
      hide Loaded, LoadTriedOne, FirstAreNew;
      var s1 := LoadTried(b, s, xs[..|xs| - 1]);
      LoadTriedIsLoaded(b, s, xs[..|xs| - 1], m);
      TriedOneIsLoaded(b, s1, xs[|xs| - 1]);
      LoadedHasIds(b, s1);
      TriedOneKeepsFirst(b, s1, xs[|xs| - 1], m);
    }
  }

  lemma LoadedHasIds(b: Buckets, s: State)
    requires Loaded(b, s)
    ensures IdsOk(s)
  {
  }

  lemma TriedOneKeepsFirst(b: Buckets, s: State, x: Saved, m: nat)
    requires FirstAreNew(s, m) && IdsOk(s)
    ensures FirstAreNew(LoadTriedOne(b, s, x), m)
  {
    hide TriedCell, Restore;
    var s' := LoadTriedOne(b, s, x);
    forall k: Id | k < m ensures k in s'.info && !s'.info[k].inTried {
      assert k in s.info && k != s.idCount;
    }
  }

  lemma CellIsLoaded(b: Buckets, s: State, bucket: nat, index: int, m: nat)
    requires Loaded(b, s) && FirstAreNew(s, m) && bucket < NEW_BUCKETS
    ensures Loaded(b, LoadCell(b, s, bucket, index)) && FirstAreNew(LoadCell(b, s, bucket, index), m)
  {
    hide Loaded;
    if 0 <= index < s.nNew {
      var c := NewCell(b, s.info[index].service, bucket);
      if c !in s.news && s.info[index].refCount < MAX_REFS { AttachIsLoaded(b, s, index, c); }
    }
  }

  lemma {:induction false} BucketIsLoaded(b: Buckets, s: State, bucket: nat, list: seq<int>, m: nat)
    requires Loaded(b, s) && FirstAreNew(s, m) && bucket < NEW_BUCKETS
    ensures Loaded(b, LoadBucket(b, s, bucket, list)) && FirstAreNew(LoadBucket(b, s, bucket, list), m)
  {
    hide Loaded, FirstAreNew, LoadCell;
    if list != [] {
      BucketIsLoaded(b, s, bucket, list[..|list| - 1], m);
      CellIsLoaded(b, LoadBucket(b, s, bucket, list[..|list| - 1]), bucket, list[|list| - 1], m);
    }
  }

  lemma {:induction false} BucketsAreLoaded(b: Buckets, s: State, buckets: seq<seq<int>>, m: nat)
    requires Loaded(b, s) && FirstAreNew(s, m) && |buckets| <= NEW_BUCKETS
    ensures Loaded(b, LoadBuckets(b, s, buckets)) && FirstAreNew(LoadBuckets(b, s, buckets), m)
  {
    hide Loaded, FirstAreNew, LoadBucket;
    if buckets != [] {
      var init := buckets[..|buckets| - 1];
      BucketsAreLoaded(b, s, init, m);
      BucketIsLoaded(b, LoadBuckets(b, s, init), |buckets| - 1, buckets[|buckets| - 1], m);
    }
  }

  // Whatever a stream says, the tables, the counts and the random order come out right before entries are pruned.
  lemma LoadIsLoaded(b: Buckets, t: Stream)
    requires BucketsOk(b)
    ensures Loaded(b, Load(b, t))
  {
    hide Loaded, FirstAreNew, LoadNew, LoadPlaced, LoadTried, LoadBuckets, BucketsOk;
    LoadNewIsLoaded(b, t.newInfos);
    LoadPlacedIsLoaded(b, t.newInfos);
    var s := LoadFirst(b, t.newInfos, Usable(t));
    LoadTriedIsLoaded(b, s, t.triedInfos, |t.newInfos|);
    if Usable(t) { BucketsAreLoaded(b, LoadTried(b, s, t.triedInfos), t.buckets, |t.newInfos|); }
  }

  /* ----- Pruning ----- */

  predicate IsStray(i: AddrInfo) {
    !i.inTried && i.refCount == 0
  }

  // The new entries below count that were left without a cell.
  function Strays(info: map<Id, AddrInfo>, count: nat): set<Id> {
    set n | n in info && n < count && IsStray(info[n])
  }

  function NetsOf(info: map<Id, AddrInfo>, ids: set<Id>): set<NetAddr> {
    set n | n in ids && n in info :: info[n].service.net
  }

  lemma DeleteKeepsTables(b: Buckets, s: State, n: Id)
    requires TablesOk(b, s) && n in s.info && IsStray(s.info[n])
    ensures TablesOk(b, Delete(s, n)) && SameButPositions(s.info - {n}, Delete(s, n).info)
    ensures Delete(s, n).addr == s.addr - {s.info[n].service.net}
  {
    hide RandomOk, TriedOk, NewOk, CountsOk, SwapRandom;
    DeleteKeepsRandom(s, n);
    SwapToEnd(s, n);
    SwapFrame(s, s.info[n].randomPos, |s.random| - 1);
    var s1 := SwapRandom(s, s.info[n].randomPos, |s.random| - 1);
    TriedIgnoresPositions(b, s.info, s1.info, s.tried);
    NewIgnoresPositions(b, s.info, s1.info, s.news);
    CountsIgnorePositions(s.info, s1.info, s.nTried, s.nNew);
    TablesDeleted(b, s1.info, s.tried, s.news, n);
    CountsDeleted(s1.info, s.nTried, s.nNew, n);
  }

  lemma CountsIgnorePositions(info: map<Id, AddrInfo>, info': map<Id, AddrInfo>, nTried: int, nNew: int)
    requires CountsOk(info, nTried, nNew) && SameButPositions(info, info')
    ensures CountsOk(info', nTried, nNew)
  {
    assert TriedIds(info') == TriedIds(info) && NewIds(info') == NewIds(info);
  }

  lemma StraysNext(info: map<Id, AddrInfo>, count: nat)
    ensures Strays(info, count + 1)
         == Strays(info, count) + if count in info && IsStray(info[count]) then {count} else {}
  {
  }

  lemma PositionsCompose(a: map<Id, AddrInfo>, b: map<Id, AddrInfo>, c: map<Id, AddrInfo>, gone: set<Id>, n: Id)
    requires SameButPositions(a - gone, b) && SameButPositions(b - {n}, c)
    ensures SameButPositions(a - (gone + {n}), c)
  {
    assert (a - (gone + {n})).Keys == (a - gone).Keys - {n};
    forall k | k in a - (gone + {n}) ensures c[k] == a[k].(randomPos := c[k].randomPos) {
      assert k in a - gone && k in b - {n};
    }
  }

  // What pruning has left after the first ids: the others, and an index without the addresses of those it dropped.
  lemma {:induction false} PrunedSoFar(b: Buckets, s: State, count: nat)
    requires TablesOk(b, s)
    ensures var s', gone := Prune(s, count), Strays(s.info, count);
            && TablesOk(b, s') && SameButPositions(s.info - gone, s'.info) && s'.addr == s.addr - NetsOf(s.info, gone)
  {
    hide TablesOk, Delete;
    if count == 0 {
      assert Strays(s.info, 0) == {} && s.info - {} == s.info && NetsOf(s.info, {}) == {} && s.addr - {} == s.addr;
    } else {
      PrunedSoFar(b, s, count - 1);
      PruneNext(b, s, Prune(s, count - 1), count - 1);
    }
  }

  lemma PruneNext(b: Buckets, s: State, s1: State, n: Id)
    requires TablesOk(b, s1) && SameButPositions(s.info - Strays(s.info, n), s1.info)
    requires s1.addr == s.addr - NetsOf(s.info, Strays(s.info, n))
    ensures var s', gone := if n in s1.info && IsStray(s1.info[n]) then Delete(s1, n) else s1, Strays(s.info, n + 1);
            && TablesOk(b, s') && SameButPositions(s.info - gone, s'.info) && s'.addr == s.addr - NetsOf(s.info, gone)
  {
    hide TablesOk, Delete;
    var before := Strays(s.info, n);
    StraysNext(s.info, n);
    assert n in s1.info <==> n in s.info;
    if n in s1.info && IsStray(s1.info[n]) {
      DeleteKeepsTables(b, s1, n);
      PositionsCompose(s.info, s1.info, Delete(s1, n).info, before, n);
      assert NetsOf(s.info, before + {n}) == NetsOf(s.info, before) + {s.info[n].service.net};
      assert s.addr - (NetsOf(s.info, before) + {s.info[n].service.net})
             == s.addr - NetsOf(s.info, before) - {s.info[n].service.net};
    } else {
      assert before + {} == before;
    }
  }

  /* ----- When the result is consistent ----- */

  // No other entry was read with the address of one that is kept.
  predicate Unambiguous(info: map<Id, AddrInfo>) {
    forall n, m | n in info && m in info && !IsStray(info[n]) && info[n].service.net == info[m].service.net :: n == m
  }

  predicate KeptStampsOk(info: map<Id, AddrInfo>) {
    forall n | n in info && !IsStray(info[n]) :: StampOk(info[n])
  }

  // The entries that stay, and the index that is left.
  ghost predicate Pruned(s: State, s': State) {
    && (forall n | n in s.info :: n in s'.info <==> !IsStray(s.info[n]))
    && (forall n | n in s'.info :: n in s.info && s'.info[n] == s.info[n].(randomPos := s'.info[n].randomPos))
    && (forall a ::
          a in s'.addr <==> a in s.addr && forall n | n in s.info && IsStray(s.info[n]) :: s.info[n].service.net != a)
    && (forall a | a in s'.addr :: s'.addr[a] == s.addr[a])
  }

  lemma PrunedAll(b: Buckets, s: State)
    requires Loaded(b, s)
    ensures TablesOk(b, Prune(s, s.idCount)) && Pruned(s, Prune(s, s.idCount))
  {
    hide RandomOk, TriedOk, NewOk, CountsOk, Prune, IsStray;
    PrunedSoFar(b, s, s.idCount);
    var s', gone := Prune(s, s.idCount), Strays(s.info, s.idCount);
    forall n | n in s.info ensures n in s'.info <==> !IsStray(s.info[n]) {
      assert n in gone <==> IsStray(s.info[n]);
    }
    forall n | n in s'.info ensures n in s.info && s'.info[n] == s.info[n].(randomPos := s'.info[n].randomPos) {
      assert n in s.info - gone;
    }
    forall a
      ensures a in NetsOf(s.info, gone) <==> exists n | n in s.info && IsStray(s.info[n]) :: s.info[n].service.net == a
    {
      if n :| n in s.info && IsStray(s.info[n]) && s.info[n].service.net == a { assert n in gone; }
    }
  }

  lemma AddrOkIff(s: State, s': State)
    requires Indexed(s) && Pruned(s, s')
    ensures AddrOk(s'.info, s'.addr) <==> Unambiguous(s.info)
  {
    hide IsStray;
    if Unambiguous(s.info) {
      forall n | n in s'.info ensures s'.info[n].service.net in s'.addr && s'.addr[s'.info[n].service.net] == n {
        assert s.info[n].service.net in s.addr;
      }
      forall a | a in s'.addr ensures s'.addr[a] in s'.info && s'.info[s'.addr[a]].service.net == a {
        assert s.addr[a] in s.info;
      }
    }
    if AddrOk(s'.info, s'.addr) {
      forall n, m | n in s.info && m in s.info && !IsStray(s.info[n]) && s.info[n].service.net == s.info[m].service.net
        ensures n == m
      {
        assert s'.addr[s'.info[n].service.net] == n;
        assert !IsStray(s.info[m]);
      }
    }
  }

  lemma StampsOkIff(s: State, s': State)
    requires Pruned(s, s')
    ensures StampsOk(s'.info) <==> KeptStampsOk(s.info)
  {
    hide IsStray;
    if StampsOk(s'.info) {
      forall n | n in s.info && !IsStray(s.info[n]) ensures StampOk(s.info[n]) {
        assert n in s'.info && StampOk(s'.info[n]);
      }
    }
  }

  lemma PrunedRefs(b: Buckets, s: State, s': State)
    requires Pruned(s, s') && TablesOk(b, s')
    ensures RefsOk(s'.info, {})
  {
    hide RandomOk, TriedOk, CountsOk;
    forall n | n in s'.info && !s'.info[n].inTried ensures 1 <= s'.info[n].refCount <= MAX_REFS {
      assert s'.info[n].refCount == |CellsOf(s'.news, n)|;
      assert !IsStray(s.info[n]);
    }
  }

  // Reading any stream gives a manager that passes its check exactly when, of the entries read, none that is kept
  // shares its address with another and all that are kept have stamps that fit.
  lemma UnserializeOkIff(b: Buckets, t: Stream)
    requires BucketsOk(b)
    ensures Ok(b, Unserialize(b, t)) <==> Unambiguous(Load(b, t).info) && KeptStampsOk(Load(b, t).info)
  {
    hide RandomOk, TriedOk, NewOk, CountsOk, AddrOk, StampsOk, RefsOk, Load, Prune, Pruned, Indexed, Unambiguous,
         KeptStampsOk, BucketsOk;
    var s := Load(b, t);
    LoadIsLoaded(b, t);
    PrunedAll(b, s);
    var s' := Unserialize(b, t);
    AddrOkIff(s, s');
    StampsOkIff(s, s');
    PrunedRefs(b, s, s');
  }

  /* ----- Streams that are safe, and one that is not ----- */

  // Different addresses and stamps that fit: enough whatever the bucket lists say.
  predicate GoodStream(t: Stream) {
    && DistinctNets(t.newInfos + t.triedInfos)
    && (forall x | x in t.newInfos :: x.lastSuccess >= 0) && (forall x | x in t.triedInfos :: x.lastSuccess > 0)
  }

  function NetsIn(xs: seq<Saved>): set<NetAddr> {
    set x | x in xs :: x.service.net
  }

  // The entries have different addresses, all of them among those read, and stamps that fit.
  predicate GoodSoFar(info: map<Id, AddrInfo>, nets: set<NetAddr>) {
    && (forall n, m | n in info && m in info && info[n].service.net == info[m].service.net :: n == m)
    && (forall n | n in info :: info[n].service.net in nets && StampOk(info[n]))
  }

  lemma GoodEntry(info: map<Id, AddrInfo>, nets: set<NetAddr>, n: Id, i: AddrInfo)
    requires GoodSoFar(info, nets) && n !in info && i.service.net !in nets && StampOk(i)
    ensures GoodSoFar(info[n := i], nets + {i.service.net})
  {
  }

  lemma GoodRefs(info: map<Id, AddrInfo>, nets: set<NetAddr>, n: Id, refs: int)
    requires GoodSoFar(info, nets) && n in info
    ensures GoodSoFar(info[n := info[n].(refCount := refs)], nets)
  {
  }

  lemma LastIsNew(xs: seq<Saved>)
    requires DistinctNets(xs) && xs != []
    ensures var init, x := xs[..|xs| - 1], xs[|xs| - 1];
            DistinctNets(init) && x.service.net !in NetsIn(init) && NetsIn(xs) == NetsIn(init) + {x.service.net}
  {
    var init, x := xs[..|xs| - 1], xs[|xs| - 1];
    assert xs == init + [x];
  }

  lemma {:induction false} FirstAreGood(b: Buckets, xs: seq<Saved>, usable: bool)
    requires DistinctNets(xs) && forall x | x in xs :: x.lastSuccess >= 0
    ensures GoodSoFar(LoadFirst(b, xs, usable).info, NetsIn(xs))
  {
    hide AddrOps.IntroducedCell, GoodSoFar;
    if xs == [] {
      NothingRead();
    } else {
      var init, x := xs[..|xs| - 1], xs[|xs| - 1];
      LastIsNew(xs);
      FirstAreGood(b, init, usable);
      LoadFirstNumbers(b, init, usable);
      var s := LoadFirst(b, init, usable);
      GoodEntry(s.info, NetsIn(init), |init|, Restore(x, |s.random|));
      var s1 := LoadNewOne(s, |init|, x);
      GoodRefs(s1.info, NetsIn(xs), |init|, s1.info[|init|].refCount + 1);
    }
  }

  lemma NothingRead()
    ensures GoodSoFar(map[], NetsIn([]))
  {
  }

  lemma {:induction false} TriedAreGood(b: Buckets, s: State, xs: seq<Saved>, ys: seq<Saved>)
    requires DistinctNets(xs + ys) && (forall y | y in ys :: y.lastSuccess > 0)
    requires RandomOk(s.info, s.random) && IdsOk(s) && GoodSoFar(s.info, NetsIn(xs))
    ensures GoodSoFar(LoadTried(b, s, ys).info, NetsIn(xs + ys))
  {
    hide GoodSoFar, TriedCell, RandomOk;
    if ys == [] {
      assert xs + ys == xs;
    } else {
      var init, y := ys[..|ys| - 1], ys[|ys| - 1];
      var all := xs + ys;
      assert all[..|all| - 1] == xs + init && all[|all| - 1] == y;
      LastIsNew(all);
      TriedAreGood(b, s, xs, init);
      LoadTriedNumbers(b, s, init);
      var s1 := LoadTried(b, s, init);
      GoodEntry(s1.info, NetsIn(xs + init), s1.idCount, Restore(y, |s1.random|).(inTried := true));
      MoreNets(s1.info, NetsIn(xs + init), NetsIn(all));
    }
  }

  lemma MoreNets(info: map<Id, AddrInfo>, nets: set<NetAddr>, more: set<NetAddr>)
    requires GoodSoFar(info, nets) && nets <= more
    ensures GoodSoFar(info, more)
  {
  }

  lemma {:induction false} BucketIsGood(b: Buckets, s: State, bucket: nat, list: seq<int>, nets: set<NetAddr>)
    requires GoodSoFar(s.info, nets)
    ensures GoodSoFar(LoadBucket(b, s, bucket, list).info, nets)
  {
    hide GoodSoFar, NewCell;
    if list != [] {
      BucketIsGood(b, s, bucket, list[..|list| - 1], nets);
      var s1, index := LoadBucket(b, s, bucket, list[..|list| - 1]), list[|list| - 1];
      if 0 <= index && index in s1.info { GoodRefs(s1.info, nets, index, s1.info[index].refCount + 1); }
    }
  }

  lemma {:induction false} BucketsAreGood(b: Buckets, s: State, buckets: seq<seq<int>>, nets: set<NetAddr>)
    requires GoodSoFar(s.info, nets)
    ensures GoodSoFar(LoadBuckets(b, s, buckets).info, nets)
  {
    hide GoodSoFar, LoadBucket;
    if buckets != [] {
      var init := buckets[..|buckets| - 1];
      BucketsAreGood(b, s, init, nets);
      BucketIsGood(b, LoadBuckets(b, s, init), |buckets| - 1, buckets[|buckets| - 1], nets);
    }
  }

  lemma GoodStreamIsRead(b: Buckets, t: Stream)
    requires BucketsOk(b) && GoodStream(t)
    ensures Ok(b, Unserialize(b, t))
  {
    hide Ok, Unserialize, LoadFirst, LoadTried, LoadBuckets, BucketsOk;
    assert DistinctNets(t.newInfos) by {
      var all := t.newInfos + t.triedInfos;
      forall k | 0 <= k < |t.newInfos| ensures t.newInfos[k] == all[k] {}
    }
    FirstAreGood(b, t.newInfos, Usable(t));
    LoadFirstNumbers(b, t.newInfos, Usable(t));
    var s := LoadFirst(b, t.newInfos, Usable(t));
    TriedAreGood(b, s, t.newInfos, t.triedInfos);
    BucketsAreGood(b, LoadTried(b, s, t.triedInfos), t.buckets, NetsIn(t.newInfos + t.triedInfos));
    UnserializeOkIff(b, t);
  }

  // The same address in both lists: both entries are kept, and the check of the manager fails.
  const TWICE := Stream(0, KEY_SIZE, 1, 1, [Saved(Service(7, 1), 1, {}, 9, 1, 0)],
      [Saved(Service(7, 1), 1, {}, 9, 1, 0)], [])

  lemma OneOfEach(b: Buckets, x: Saved, y: Saved)
    ensures Load(b, Stream(0, KEY_SIZE, 1, 1, [x], [y], []))
         == LoadTriedOne(b, PlaceOne(b, LoadNewOne(EMPTY, 0, x), 0), y)
  {
    hide LoadTriedOne, PlaceOne, LoadNewOne;
    assert [x][..0] == [] && [y][..0] == [];
    assert LoadPlaced(b, [x]) == PlaceOne(b, LoadNewOne(LoadPlaced(b, []), 0, x), 0);
    var s := LoadPlaced(b, [x]);
    assert LoadTried(b, s, [y]) == LoadTriedOne(b, LoadTried(b, s, []), y);
  }

  lemma RepeatedAddressFails(b: Buckets)
    requires BucketsOk(b)
    ensures WellFormed(TWICE) && !Ok(b, Unserialize(b, TWICE))
  {
    hide Ok, Unserialize, BucketsOk, Load, TriedCell, AddrOps.IntroducedCell;
    var x := Saved(Service(7, 1), 1, {}, 9, 1, 0);
    OneOfEach(b, x, x);
    var s := PlaceOne(b, LoadNewOne(EMPTY, 0, x), 0);
    assert 0 in s.info && s.info[0].service == x.service && s.idCount == 1 && s.tried == map[];
    var s' := LoadTriedOne(b, s, x);
    assert 0 in s'.info && 1 in s'.info && s'.info[1].inTried && s'.info[1].service == s'.info[0].service;
    UnserializeOkIff(b, TWICE);
  }
}
