/**
 Writing an address manager to a stream and reading it back into a fresh one. The result is
 the same manager up to the numbering of its entries, their random order and what is kept in
 memory only (RoundTrip).
 */
module AddrSerialize {
  import opened AddrTables
  import AddrOps
  import Totals

  // What is written of an entry.
  datatype Saved = Saved(service: Service, time: int, services: set<nat>, source: NetAddr, lastSuccess: int,
      attempts: nat)

  // The bucket key is written too: the placement functions are the same before and after.
  datatype Stream = Stream(version: nat, keySize: nat, nNew: int, nTried: int, newInfos: seq<Saved>,
      triedInfos: seq<Saved>,
                           buckets: seq<seq<int>>)

  const VERSION: nat := 1
  const KEY_SIZE: nat := 32

  function Save(i: AddrInfo): Saved {
    Saved(i.service, i.time, i.services, i.source, i.lastSuccess, i.attempts)
  }

  function Restore(x: Saved, pos: nat): AddrInfo {
    AddrInfo(x.service, x.time, x.services, x.source, 0, 0, x.lastSuccess, x.attempts, 0, false, pos)
  }

  /* ----- Writing ----- */

  // The ids in the order of the map.
  ghost predicate IsKeyOrder(ids: seq<Id>, info: map<Id, AddrInfo>) {
    && (forall n :: n in ids <==> n in info)
    && (forall i, j | 0 <= i < j < |ids| :: ids[i] < ids[j])
  }

  function NewList(info: map<Id, AddrInfo>, ids: seq<Id>): seq<Id> {
    if ids == [] then []
    else
      var n := ids[|ids| - 1];
      NewList(info, ids[..|ids| - 1]) + if n in info && info[n].refCount != 0 then [n] else []
  }

  function TriedList(info: map<Id, AddrInfo>, ids: seq<Id>): seq<Id> {
    if ids == [] then []
    else
      var n := ids[|ids| - 1];
      TriedList(info, ids[..|ids| - 1]) + if n in info && info[n].inTried then [n] else []
  }

  // The number of new entries before each entry.
  function Indices(info: map<Id, AddrInfo>, ids: seq<Id>): map<Id, int> {
    if ids == [] then map[]
    else Indices(info, ids[..|ids| - 1])[ids[|ids| - 1] := |NewList(info, ids[..|ids| - 1])|]
  }

  function SaveAll(info: map<Id, AddrInfo>, list: seq<Id>): seq<Saved>
    requires forall n | n in list :: n in info
  {
    seq(|list|, k requires 0 <= k < |list| => assert list[k] in list; Save(info[list[k]]))
  }

  // What is in the first cells of a bucket, in order of position.
  function Entries(news: map<Cell, Id>, bucket: nat, positions: nat): seq<Id> {
    if positions == 0 then []
    else
      Entries(news, bucket, positions - 1) +
      if Cell(bucket, positions - 1) in news then [news[Cell(bucket, positions - 1)]] else []
  }

  function IndexAll(indices: map<Id, int>, list: seq<Id>): seq<int> {
    seq(|list|, k requires 0 <= k < |list| => if list[k] in indices then indices[list[k]] else 0)
  }

  function SaveBuckets(news: map<Cell, Id>, indices: map<Id, int>, count: nat): seq<seq<int>> {
    seq(count, bucket requires 0 <= bucket < count => IndexAll(indices, Entries(news, bucket, BUCKET_SIZE)))
  }

  lemma {:induction false} ListsAreInInfo(info: map<Id, AddrInfo>, ids: seq<Id>)
    ensures forall n | n in NewList(info, ids) :: n in info && n in ids && info[n].refCount != 0
    ensures forall n | n in TriedList(info, ids) :: n in info && n in ids && info[n].inTried
    ensures forall n | n in ids && n in info && info[n].refCount != 0 :: n in NewList(info, ids)
    ensures forall n | n in ids && n in info && info[n].inTried :: n in TriedList(info, ids)
  {
    if ids != [] {
      ListsAreInInfo(info, ids[..|ids| - 1]);
      assert ids == ids[..|ids| - 1] + [ids[|ids| - 1]];
    }
  }

  function SavedNew(info: map<Id, AddrInfo>, ids: seq<Id>): seq<Saved> {
    ListsAreInInfo(info, ids);
    SaveAll(info, NewList(info, ids))
  }

  function SavedTried(info: map<Id, AddrInfo>, ids: seq<Id>): seq<Saved> {
    ListsAreInInfo(info, ids);
    SaveAll(info, TriedList(info, ids))
  }

  function Serialize(s: State, ids: seq<Id>): Stream {
    Stream(VERSION, KEY_SIZE, s.nNew, s.nTried, SavedNew(s.info, ids), SavedTried(s.info, ids),
           SaveBuckets(s.news, Indices(s.info, ids), NEW_BUCKETS))
  }

  // One more id of the map.
  lemma SavedNext(info: map<Id, AddrInfo>, ids: seq<Id>, i: nat)
    requires i < |ids| && ids[i] in info
    ensures var n, before, next := ids[i], ids[..i], ids[..i + 1];
            && SavedNew(info, next) == SavedNew(info, before) + (if info[n].refCount != 0 then [Save(info[n])] else [])
            && SavedTried(info, next) == SavedTried(info, before) + (if info[n].inTried then [Save(info[n])] else [])
            && Indices(info, next) == Indices(info, before)[n := |SavedNew(info, before)|]
  {
    var n, before, next := ids[i], ids[..i], ids[..i + 1];
    assert next[..|next| - 1] == before;
    ListsAreInInfo(info, before);
    ListsAreInInfo(info, next);
    hide SaveAll;
    SaveOneMore(info, NewList(info, before), n);
    SaveOneMore(info, TriedList(info, before), n);
    assert NewList(info, before) + [] == NewList(info, before);
    assert TriedList(info, before) + [] == TriedList(info, before);
  }

  lemma SaveOneMore(info: map<Id, AddrInfo>, list: seq<Id>, n: Id)
    requires n in info && forall m | m in list :: m in info
    ensures forall m | m in list + [n] :: m in info
    ensures SaveAll(info, list + [n]) == SaveAll(info, list) + [Save(info[n])]
  {
  }

  lemma {:induction false} SavedGrows(info: map<Id, AddrInfo>, ids: seq<Id>, i: nat)
    requires i <= |ids| && forall n | n in ids :: n in info
    ensures |SavedNew(info, ids[..i])| <= |SavedNew(info, ids)| &&
            |SavedTried(info, ids[..i])| <= |SavedTried(info, ids)|
    decreases |ids| - i
  {
    if i == |ids| {
      assert ids[..i] == ids;
    } else {
      hide SavedNew, SavedTried;
      assert ids[i] in ids;
      SavedNext(info, ids, i);
      SavedGrows(info, ids, i + 1);
    }
  }

  /* ----- Reading, into a fresh manager ----- */

  function LoadNewOne(s: State, n: Id, x: Saved): State {
    s.(info := s.info[n := Restore(x, |s.random|)], addr := s.addr[x.service.net := n], random := s.random + [n],
       nNew := s.nNew + 1, idCount := n + 1)
  }

  function LoadNew(xs: seq<Saved>): State {
    if xs == [] then EMPTY else LoadNewOne(LoadNew(xs[..|xs| - 1]), |xs| - 1, xs[|xs| - 1])
  }

  // Without usable bucket lists each new entry gets the cell its source leads to, if that is free.
  function PlaceOne(b: Buckets, s: State, n: Id): State {
    if n !in s.info || AddrOps.IntroducedCell(b, s.info[n]) in s.news then s
    else Attach(s, n, AddrOps.IntroducedCell(b, s.info[n]))
  }

  function LoadPlaced(b: Buckets, xs: seq<Saved>): State {
    if xs == [] then EMPTY
    else PlaceOne(b, LoadNewOne(LoadPlaced(b, xs[..|xs| - 1]), |xs| - 1, xs[|xs| - 1]), |xs| - 1)
  }

  // An entry whose cell is taken is lost.
  function LoadTriedOne(b: Buckets, s: State, x: Saved): State {
    var c := TriedCell(b, x.service);
    if c in s.tried then s
    else
      s.(info := s.info[s.idCount := Restore(x, |s.random|).(inTried := true)],
         addr := s.addr[x.service.net := s.idCount],
         random := s.random + [s.idCount], tried := s.tried[c := s.idCount], nTried := s.nTried + 1,
         idCount := s.idCount + 1)
  }

  function LoadTried(b: Buckets, s: State, xs: seq<Saved>): State {
    if xs == [] then s else LoadTriedOne(b, LoadTried(b, s, xs[..|xs| - 1]), xs[|xs| - 1])
  }

  function LoadCell(b: Buckets, s: State, bucket: nat, index: int): State {
    if !(0 <= index < s.nNew) || index !in s.info then s
    else
      var c := NewCell(b, s.info[index].service, bucket);
      if c !in s.news && s.info[index].refCount < MAX_REFS then Attach(s, index, c) else s
  }

  function LoadBucket(b: Buckets, s: State, bucket: nat, list: seq<int>): State {
    if list == [] then s else LoadCell(b, LoadBucket(b, s, bucket, list[..|list| - 1]), bucket, list[|list| - 1])
  }

  function LoadBuckets(b: Buckets, s: State, buckets: seq<seq<int>>): State {
    if buckets == [] then s
    else LoadBucket(b, LoadBuckets(b, s, buckets[..|buckets| - 1]), |buckets| - 1, buckets[|buckets| - 1])
  }

  // Deletes the new entries that were left without a cell.
  function Prune(s: State, count: nat): State {
    if count == 0 then s
    else
      var s1 := Prune(s, count - 1);
      if count - 1 in s1.info && !s1.info[count - 1].inTried && s1.info[count - 1].refCount == 0
      then Delete(s1, count - 1) else s1
  }

  function LoadFirst(b: Buckets, xs: seq<Saved>, usable: bool): State {
    if usable then LoadNew(xs) else LoadPlaced(b, xs)
  }

  // The bucket lists are used for the current version and number of buckets only.
  predicate Usable(t: Stream) {
    t.version == VERSION && |t.buckets| == NEW_BUCKETS
  }

  function Load(b: Buckets, t: Stream): State {
    var s := LoadTried(b, LoadFirst(b, t.newInfos, Usable(t)), t.triedInfos);
    if Usable(t) then LoadBuckets(b, s, t.buckets) else s
  }

  function Unserialize(b: Buckets, t: Stream): State {
    Prune(Load(b, t), Load(b, t).idCount)
  }

  /* Whatever the stream holds, the random order stays a permutation of the entries. */

  lemma {:induction false} LoadNewNumbers(xs: seq<Saved>)
    ensures var s := LoadNew(xs);
            RandomOk(s.info, s.random) && |s.random| == |xs| && s.idCount == |xs| == s.nNew && IdsOk(s)
    ensures forall k: Id | k < |xs| :: k in LoadNew(xs).info
    ensures LoadNew(xs).nTried == 0
  {
    if xs != [] { LoadNewNumbers(xs[..|xs| - 1]); }
  }

  // The numbers after m new entries.
  ghost predicate NumbersOk(s: State, m: nat) {
    && RandomOk(s.info, s.random) && IdsOk(s) && s.idCount == m == s.nNew && s.nTried == 0
    && forall k: Id | k < m :: k in s.info
  }

  lemma NumbersNext(s: State, m: nat, x: Saved)
    requires NumbersOk(s, m)
    ensures NumbersOk(LoadNewOne(s, m, x), m + 1)
  {
    hide RandomOk;
    RandomCreated(s.info, s.random, m, Restore(x, |s.random|));
  }

  lemma NumbersPlaced(b: Buckets, s: State, m: nat, n: Id)
    requires NumbersOk(s, m) && n in s.info
    ensures NumbersOk(PlaceOne(b, s, n), m)
  {
    hide RandomOk, AddrOps.IntroducedCell;
    RandomKept(s.info, s.random, n, s.info[n].(refCount := s.info[n].refCount + 1));
  }

  lemma {:induction false} LoadPlacedNumbers(b: Buckets, xs: seq<Saved>)
    ensures NumbersOk(LoadPlaced(b, xs), |xs|)
  {
    if xs != [] {
      hide NumbersOk, PlaceOne;
      var s, n, x := LoadPlaced(b, xs[..|xs| - 1]), |xs| - 1, xs[|xs| - 1];
      LoadPlacedNumbers(b, xs[..|xs| - 1]);
      NumbersNext(s, n, x);
      NumbersPlaced(b, LoadNewOne(s, n, x), n + 1, n);
    }
  }

  lemma LoadFirstNumbers(b: Buckets, xs: seq<Saved>, usable: bool)
    ensures var s := LoadFirst(b, xs, usable);
            && RandomOk(s.info, s.random) && IdsOk(s) && s.idCount == |xs| == s.nNew && s.nTried == 0
            && forall k: Id | k < |xs| :: k in s.info
  {
    if usable { LoadNewNumbers(xs); } else { LoadPlacedNumbers(b, xs); }
  }

  lemma {:induction false} LoadTriedNumbers(b: Buckets, s: State, xs: seq<Saved>)
    requires RandomOk(s.info, s.random) && IdsOk(s)
    ensures var s' := LoadTried(b, s, xs);
            RandomOk(s'.info, s'.random) && IdsOk(s') && s.info.Keys <= s'.info.Keys && s'.nNew == s.nNew
  {
    if xs != [] { LoadTriedNumbers(b, s, xs[..|xs| - 1]); }
  }

  lemma {:induction false} LoadBucketNumbers(b: Buckets, s: State, bucket: nat, list: seq<int>)
    requires RandomOk(s.info, s.random)
    ensures var s' := LoadBucket(b, s, bucket, list);
            RandomOk(s'.info, s'.random) && s'.info.Keys == s.info.Keys && s'.nNew == s.nNew
  {
    if list != [] { LoadBucketNumbers(b, s, bucket, list[..|list| - 1]); }
  }

  lemma {:induction false} LoadBucketsNumbers(b: Buckets, s: State, buckets: seq<seq<int>>)
    requires RandomOk(s.info, s.random)
    ensures var s' := LoadBuckets(b, s, buckets);
            RandomOk(s'.info, s'.random) && s'.info.Keys == s.info.Keys && s'.nNew == s.nNew
  {
    if buckets != [] {
      hide LoadBucket, RandomOk;
      var init := buckets[..|buckets| - 1];
      LoadBucketsNumbers(b, s, init);
      LoadBucketNumbers(b, LoadBuckets(b, s, init), |buckets| - 1, buckets[|buckets| - 1]);
    }
  }

  lemma {:induction false} PruneNumbers(s: State, count: nat)
    requires RandomOk(s.info, s.random)
    ensures RandomOk(Prune(s, count).info, Prune(s, count).random)
  {
    hide RandomOk, Delete;
    if count > 0 {
      PruneNumbers(s, count - 1);
      var s1 := Prune(s, count - 1);
      if count - 1 in s1.info { DeleteKeepsRandom(s1, count - 1); }
    }
  }

  // The stream has the lists its counts announce.
  predicate WellFormed(t: Stream) {
    |t.newInfos| == t.nNew && |t.triedInfos| == t.nTried
  }

  /* ----- The round trip ----- */

  // The entry of `all[k]` has become entry k: what it was tried last is kept in memory only.
  predicate SameEntry(i: AddrInfo, j: AddrInfo) {
    && j.service == i.service && j.time == i.time && j.services == i.services && j.source == i.source
    && j.lastSuccess == i.lastSuccess && j.attempts == i.attempts && j.lastTry == 0 && j.lastCountAttempt == 0
    && j.refCount == i.refCount && j.inTried == i.inTried
  }

  // A table read back: the same cells, for the same entries under their new numbers.
  ghost predicate SameTable(all: seq<Id>, table: map<Cell, Id>, table': map<Cell, Id>) {
    && table'.Keys == table.Keys
    && (forall c | c in table' :: table'[c] < |all| && all[table'[c]] == table[c])
  }

  ghost predicate Isomorphic(all: seq<Id>, s: State, s': State) {
    && (forall n :: n in all <==> n in s.info)
    && (forall i, j | 0 <= i < j < |all| :: all[i] != all[j])
    && (forall k: Id :: k in s'.info <==> k < |all|)
    && (forall k: Id | k < |all| :: SameEntry(s.info[all[k]], s'.info[k]))
    && SameTable(all, s.tried, s'.tried)
    && SameTable(all, s.news, s'.news)
    && s'.nTried == s.nTried && s'.nNew == s.nNew && s'.idCount == |all| && s'.collisions == {}
  }

  predicate Distinct<T(==)>(r: seq<T>) {
    forall i, j | 0 <= i < j < |r| :: r[i] != r[j]
  }

  lemma {:induction false} ListsAreDistinct(info: map<Id, AddrInfo>, ids: seq<Id>)
    requires forall i, j | 0 <= i < j < |ids| :: ids[i] < ids[j]
    ensures Distinct(NewList(info, ids)) && Distinct(TriedList(info, ids))
  {
    if ids != [] {
      var init := ids[..|ids| - 1];
      ListsAreDistinct(info, init);
      ListsAreInInfo(info, init);
      assert ids[|ids| - 1] !in init;
    }
  }

  lemma ListSize(list: seq<Id>, s: set<Id>)
    requires Distinct(list) && (forall n :: n in list <==> n in s)
    ensures |list| == |s|
  {
    AddrOps.DistinctSize(list);
    assert (set k | 0 <= k < |list| :: list[k]) == s;
  }

  // An entry has references exactly when it is not tried.
  lemma RefsTell(b: Buckets, s: State, n: Id)
    requires Ok(b, s) && n in s.info
    ensures s.info[n].refCount != 0 <==> !s.info[n].inTried
  {
    if s.info[n].inTried { OwnerIsTried(b, s.info, s.tried, s.news, TriedCell(b, s.info[n].service)); }
  }

  // The counts of the manager are those of the lists written: neither assert of Serialize fails.
  lemma SerializeCounts(b: Buckets, s: State, ids: seq<Id>)
    requires Ok(b, s) && IsKeyOrder(ids, s.info)
    ensures |NewList(s.info, ids)| == s.nNew && |TriedList(s.info, ids)| == s.nTried
  {
    hide RandomOk, AddrOk, TriedOk, NewOk, RefsOk, StampsOk;
    ListsAreInInfo(s.info, ids);
    ListsAreDistinct(s.info, ids);
    forall n | n in s.info ensures s.info[n].refCount != 0 <==> !s.info[n].inTried { RefsTell(b, s, n); }
    ListSize(NewList(s.info, ids), NewIds(s.info));
    ListSize(TriedList(s.info, ids), TriedIds(s.info));
  }

  lemma {:induction false} IndexFinds(info: map<Id, AddrInfo>, ids: seq<Id>, n: Id)
    requires (forall i, j | 0 <= i < j < |ids| :: ids[i] < ids[j]) && n in NewList(info, ids)
    ensures n in Indices(info, ids) && 0 <= Indices(info, ids)[n] < |NewList(info, ids)|
    ensures NewList(info, ids)[Indices(info, ids)[n]] == n
  {
    var init, last := ids[..|ids| - 1], ids[|ids| - 1];
    ListsAreInInfo(info, ids);
    ListsAreInInfo(info, init);
    if n != last {
      IndexFinds(info, init, n);
    } else {
      assert last !in init;
    }
  }

  /* Reading the two lists of entries */

  // The state after reading the entries xs, of which those from m on are tried.
  ghost predicate Numbered(b: Buckets, s: State, xs: seq<Saved>, m: nat) {
    && (forall k: Id :: k in s.info <==> k < |xs|)
    && (forall k: Id | k < |xs| :: s.info[k] == Restore(xs[k], k).(inTried := k >= m))
    && |s.random| == |xs| && (forall k | 0 <= k < |xs| :: s.random[k] == k)
    && AddrOk(s.info, s.addr) && TriedOk(b, s.info, s.tried)
    && s.news == map[] && s.collisions == {} && s.idCount == |xs|
    && m <= |xs| && s.nNew == m && s.nTried == |xs| - m
  }

  predicate DistinctNets(xs: seq<Saved>) {
    forall i, j | 0 <= i < j < |xs| :: xs[i].service.net != xs[j].service.net
  }

  ghost predicate DistinctCells(b: Buckets, xs: seq<Saved>, m: nat) {
    forall i, j | m <= i < j < |xs| :: TriedCell(b, xs[i].service) != TriedCell(b, xs[j].service)
  }

  lemma NetIsNew(b: Buckets, s: State, xs: seq<Saved>, m: nat, x: Saved)
    requires Numbered(b, s, xs, m) && DistinctNets(xs + [x])
    ensures x.service.net !in s.addr
  {
    forall k | 0 <= k < |xs| ensures xs[k].service.net != x.service.net {
      assert (xs + [x])[k] == xs[k] && (xs + [x])[|xs|] == x;
    }
  }

  lemma NumberedNew(b: Buckets, s: State, xs: seq<Saved>, x: Saved)
    requires Numbered(b, s, xs, |xs|) && DistinctNets(xs + [x])
    ensures Numbered(b, s.(info := s.info[|xs| := Restore(x, |s.random|)], addr := s.addr[x.service.net := |xs|],
                           random := s.random + [|xs|], nNew := s.nNew + 1, idCount := |xs| + 1), xs + [x], |xs| + 1)
  {
    NetIsNew(b, s, xs, |xs|, x);
    AddrCreated(s.info, s.addr, |xs|, Restore(x, |s.random|));
    assert TriedOk(b, s.info[|xs| := Restore(x, |s.random|)], s.tried);
    hide AddrOk, TriedOk;
  }

  lemma {:induction false} LoadedNew(b: Buckets, xs: seq<Saved>)
    requires DistinctNets(xs)
    ensures Numbered(b, LoadNew(xs), xs, |xs|)
  {
    if xs != [] {
      hide Numbered;
      var init, x := xs[..|xs| - 1], xs[|xs| - 1];
      LoadedNew(b, init);
      assert init + [x] == xs;
      NumberedNew(b, LoadNew(init), init, x);
    }
  }

  lemma NumberedTried(b: Buckets, s: State, xs: seq<Saved>, m: nat, x: Saved)
    requires Numbered(b, s, xs, m) && DistinctNets(xs + [x]) && DistinctCells(b, xs + [x], m)
    ensures Numbered(b, LoadTriedOne(b, s, x), xs + [x], m)
  {
    hide DistinctNets, DistinctCells, AddrOk, TriedOk;
    NetIsNew(b, s, xs, m, x);
    CellIsFree(b, s, xs, m, x);
    var n, i := |xs|, Restore(x, |xs|).(inTried := true);
    AddrCreated(s.info, s.addr, n, i);
    TriedCreated(b, s.info, s.tried, n, i);
  }

  lemma CellIsFree(b: Buckets, s: State, xs: seq<Saved>, m: nat, x: Saved)
    requires Numbered(b, s, xs, m) && DistinctCells(b, xs + [x], m)
    ensures TriedCell(b, x.service) !in s.tried
  {
    forall k | m <= k < |xs| ensures TriedCell(b, xs[k].service) != TriedCell(b, x.service) {
      assert (xs + [x])[k] == xs[k] && (xs + [x])[|xs|] == x;
    }
  }

  lemma TriedCreated(b: Buckets, info: map<Id, AddrInfo>, tried: map<Cell, Id>, n: Id, i: AddrInfo)
    requires TriedOk(b, info, tried) && n !in info && i.inTried && TriedCell(b, i.service) !in tried
    ensures TriedOk(b, info[n := i], tried[TriedCell(b, i.service) := n])
  {
  }

  lemma {:induction false} LoadedTried(b: Buckets, s: State, xs: seq<Saved>, ys: seq<Saved>)
    requires Numbered(b, s, xs, |xs|) && DistinctNets(xs + ys) && DistinctCells(b, xs + ys, |xs|)
    ensures Numbered(b, LoadTried(b, s, ys), xs + ys, |xs|)
  {
    hide Numbered, LoadTriedOne;
    if ys == [] {
      assert xs + ys == xs;
    } else {
      var init, y := ys[..|ys| - 1], ys[|ys| - 1];
      var all := xs + ys;
      assert xs + init == all[..|all| - 1] && all == (xs + init) + [y];
      LoadedTried(b, s, xs, init);
      NumberedTried(b, LoadTried(b, s, init), xs + init, |xs|, y);
    }
  }

  /* Reading the buckets */

  // The state s' once the cells in `done` have been read into the state s0 that has all entries.
  ghost predicate Filled(all: seq<Id>, news: map<Cell, Id>, done: set<Cell>, s0: State, s': State) {
    && s' == s0.(info := s'.info, news := s'.news)
    && s'.news.Keys == done && done <= news.Keys
    && (forall c | c in done :: s'.news[c] < |all| && all[s'.news[c]] == news[c])
    && s'.info.Keys == s0.info.Keys
    && CountedRefs(s0.info, s'.info, s'.news)
  }

  ghost predicate CountedRefs(info0: map<Id, AddrInfo>, info: map<Id, AddrInfo>, news: map<Cell, Id>) {
    forall k | k in info0 && k in info :: info[k] == info0[k].(refCount := |CellsOf(news, k)|)
  }

  // The entries under their old numbers: first the new ones, then the tried ones.
  ghost predicate Renumbered(s: State, s0: State, all: seq<Id>, m: nat) {
    && Distinct(all) && m <= |all|
    && (forall k: Id :: k in s0.info <==> k < |all|)
    && (forall k: Id | k < |all| :: all[k] in s.info && s0.info[k].service == s.info[all[k]].service)
    && s0.nNew == m
  }

  lemma RoomForOneMore(all: seq<Id>, news: map<Cell, Id>, done: set<Cell>, s0: State, s': State, index: nat, c: Cell)
    requires Filled(all, news, done, s0, s') && index < |all| && c in news && c !in done && all[index] == news[c]
    ensures |CellsOf(s'.news, index)| < |CellsOf(news, news[c])|
  {
    var mine, theirs := CellsOf(s'.news, index), CellsOf(news, news[c]);
    assert c in theirs && c !in mine && mine <= theirs;
    Totals.ProperSubsetIsSmaller(mine, theirs);
  }

  lemma FilledAttach(all: seq<Id>, news: map<Cell, Id>, done: set<Cell>, s0: State, s': State, index: nat, c: Cell)
    requires Filled(all, news, done, s0, s') && index in s0.info && index < |all|
    requires c in news && c !in done && all[index] == news[c]
    ensures Filled(all, news, done + {c}, s0, Attach(s', index, c))
  {
    CountedAttach(s0.info, s'.info, s'.news, index, c);
    hide CountedRefs;
  }

  lemma CountedAttach(info0: map<Id, AddrInfo>, info: map<Id, AddrInfo>, news: map<Cell, Id>, n: Id, c: Cell)
    requires CountedRefs(info0, info, news) && n in info0 && n in info && c !in news
    ensures CountedRefs(info0, info[n := info[n].(refCount := info[n].refCount + 1)], news[c := n])
  {
    var info', news' := info[n := info[n].(refCount := info[n].refCount + 1)], news[c := n];
    forall k | k in info0 && k in info' ensures info'[k] == info0[k].(refCount := |CellsOf(news', k)|) {
      assert info[k] == info0[k].(refCount := |CellsOf(news, k)|);
      CellsPut(news, n, c, k);
    }
  }

  lemma FillCell(b: Buckets, s: State, s0: State, all: seq<Id>, m: nat, done: set<Cell>, s': State, c: Cell, index: int)
    requires NewOk(b, s.info, s.news) && RefsOk(s.info, {}) && Renumbered(s, s0, all, m)
    requires Filled(all, s.news, done, s0, s') && c in s.news && c !in done
    requires 0 <= index < m && all[index] == s.news[c]
    ensures Filled(all, s.news, done + {c}, s0, LoadCell(b, s', c.bucket, index))
  {
    var n := s.news[c];
    OwnerHasRefs(b, s.info, s.news, c);
    RoomForOneMore(all, s.news, done, s0, s', index, c);
    assert c == NewCell(b, s'.info[index].service, c.bucket);
    assert s'.info[index].refCount == |CellsOf(s'.news, index)|;
    FilledAttach(all, s.news, done, s0, s', index, c);
  }

  function InBucket(news: map<Cell, Id>, bucket: nat, positions: nat): set<Cell> {
    set c | c in news && c.bucket == bucket && c.pos < positions
  }

  function InBuckets(news: map<Cell, Id>, count: nat): set<Cell> {
    set c | c in news && c.bucket < count
  }

  ghost predicate Indexed(all: seq<Id>, m: nat, news: map<Cell, Id>, indices: map<Id, int>) {
    forall c | c in news :: news[c] in indices && 0 <= indices[news[c]] < m <= |all| && all[indices[news[c]]] == news[c]
  }

  lemma {:induction false} FillBucket(b: Buckets, s: State, s0: State, all: seq<Id>, m: nat, done: set<Cell>, s': State,
                                      indices: map<Id, int>, bucket: nat, positions: nat)
    requires NewOk(b, s.info, s.news) && RefsOk(s.info, {}) && Renumbered(s, s0, all, m)
    requires Indexed(all, m, s.news, indices)
    requires Filled(all, s.news, done, s0, s') && done !! InBucket(s.news, bucket, positions)
    ensures var list := IndexAll(indices, Entries(s.news, bucket, positions));
            Filled(all, s.news, done + InBucket(s.news, bucket, positions), s0, LoadBucket(b, s', bucket, list))
  {
    hide NewOk, RefsOk, Renumbered, Filled, LoadCell;
    var news, here := s.news, InBucket(s.news, bucket, positions);
    if positions == 0 {
      assert done + here == done;
    } else {
      var c, before := Cell(bucket, positions - 1), InBucket(news, bucket, positions - 1);
      FillBucket(b, s, s0, all, m, done, s', indices, bucket, positions - 1);
      var entries := Entries(news, bucket, positions - 1);
      if c in news {
        var list := IndexAll(indices, entries + [news[c]]);
        assert list[..|list| - 1] == IndexAll(indices, entries);
        assert here == before + {c} && done + here == done + before + {c};
        FillCell(b, s, s0, all, m, done + before, LoadBucket(b, s', bucket, IndexAll(indices, entries)), c,
                 indices[news[c]]);
      } else {
        assert here == before && Entries(news, bucket, positions) == entries + [] == entries;
      }
    }
  }

  lemma {:induction false} FillBuckets(b: Buckets, s: State, s0: State, all: seq<Id>, m: nat, indices: map<Id, int>,
      count: nat)
    requires BucketsOk(b) && NewOk(b, s.info, s.news) && RefsOk(s.info, {}) && Renumbered(s, s0, all, m)
    requires Indexed(all, m, s.news, indices) && Filled(all, s.news, {}, s0, s0)
    ensures Filled(all, s.news, InBuckets(s.news, count), s0, LoadBuckets(b, s0, SaveBuckets(s.news, indices, count)))
  {
    hide NewOk, RefsOk, Renumbered, Filled, LoadBucket, Indexed, BucketsOk;
    BucketsSplit(b, s, count);
    if count > 0 {
      FillBuckets(b, s, s0, all, m, indices, count - 1);
      var saved := SaveBuckets(s.news, indices, count);
      assert saved[..count - 1] == SaveBuckets(s.news, indices, count - 1);
      FillBucket(b, s, s0, all, m, InBuckets(s.news, count - 1), LoadBuckets(b, s0, saved[..count - 1]), indices,
          count - 1, BUCKET_SIZE);
    }
  }

  lemma BucketsSplit(b: Buckets, s: State, count: nat)
    requires BucketsOk(b) && NewOk(b, s.info, s.news)
    ensures if count == 0 then InBuckets(s.news, count) == {}
            else var last := InBucket(s.news, count - 1, BUCKET_SIZE);
                 InBuckets(s.news, count) == InBuckets(s.news, count - 1) + last && InBuckets(s.news, count - 1) !! last
  {
    PositionsInRange(b, s);
    hide NewOk, BucketsOk;
  }

  lemma PositionsInRange(b: Buckets, s: State)
    requires BucketsOk(b) && NewOk(b, s.info, s.news)
    ensures forall c | c in s.news :: c.bucket < NEW_BUCKETS && c.pos < BUCKET_SIZE
  {
  }

  /* Putting it together */

  function Order(s: State, ids: seq<Id>): seq<Id> {
    NewList(s.info, ids) + TriedList(s.info, ids)
  }

  lemma OrderIsPermutation(b: Buckets, s: State, ids: seq<Id>)
    requires Ok(b, s) && IsKeyOrder(ids, s.info)
    ensures Distinct(Order(s, ids)) && (forall n :: n in Order(s, ids) <==> n in s.info)
    ensures forall k | 0 <= k < |Order(s, ids)| :: Order(s, ids)[k] in s.info
    ensures forall k | 0 <= k < |Order(s, ids)| :: s.info[Order(s, ids)[k]].inTried <==> k >= |NewList(s.info, ids)|
  {
    hide RandomOk, AddrOk, TriedOk, NewOk, RefsOk, StampsOk, CountsOk;
    var list, tried := NewList(s.info, ids), TriedList(s.info, ids);
    ListsAreInInfo(s.info, ids);
    ListsAreDistinct(s.info, ids);
    forall n | n in s.info ensures s.info[n].refCount != 0 <==> !s.info[n].inTried { RefsTell(b, s, n); }
    forall k | 0 <= k < |list| ensures list[k] in list {}
    forall k | 0 <= k < |tried| ensures tried[k] in tried {}
    assert forall n :: n in list + tried <==> n in list || n in tried;
  }

  lemma SavedOrder(s: State, ids: seq<Id>)
    ensures var t := Serialize(s, ids); var all := Order(s, ids);
            && |t.newInfos| == |NewList(s.info, ids)| && |t.newInfos + t.triedInfos| == |all|
            && (forall k | 0 <= k < |all| :: all[k] in s.info && (t.newInfos + t.triedInfos)[k] == Save(s.info[all[k]]))
  {
    hide NewList, TriedList, Indices, SaveBuckets;
    ListsAreInInfo(s.info, ids);
    var list, tried, t := NewList(s.info, ids), TriedList(s.info, ids), Serialize(s, ids);
    forall k | 0 <= k < |list| ensures list[k] in s.info && t.newInfos[k] == Save(s.info[list[k]]) {
      assert list[k] in list;
    }
    forall k | 0 <= k < |tried| ensures tried[k] in s.info && t.triedInfos[k] == Save(s.info[tried[k]]) {
      assert tried[k] in tried;
    }
    hide SavedNew, SavedTried, Save;
  }

  lemma NothingCollides(b: Buckets, s: State, all: seq<Id>, xs: seq<Saved>, m: nat)
    requires Ok(b, s) && Distinct(all) && |xs| == |all|
    requires forall k | 0 <= k < |all| ::
               all[k] in s.info && xs[k] == Save(s.info[all[k]]) && (s.info[all[k]].inTried <==> k >= m)
    ensures DistinctNets(xs) && DistinctCells(b, xs, m)
  {
    forall i, j | 0 <= i < j < |xs| ensures xs[i].service.net != xs[j].service.net {
      DifferentNets(s.info, s.addr, all[i], all[j]);
    }
    forall i, j | m <= i < j < |xs| ensures TriedCell(b, xs[i].service) != TriedCell(b, xs[j].service) {
      DifferentCells(b, s.info, s.tried, all[i], all[j]);
    }
  }

  lemma DifferentNets(info: map<Id, AddrInfo>, addr: map<NetAddr, Id>, n: Id, m: Id)
    requires AddrOk(info, addr) && n in info && m in info && n != m
    ensures info[n].service.net != info[m].service.net
  {
  }

  lemma DifferentCells(b: Buckets, info: map<Id, AddrInfo>, tried: map<Cell, Id>, n: Id, m: Id)
    requires TriedOk(b, info, tried) && n in info && m in info && n != m && info[n].inTried && info[m].inTried
    ensures TriedCell(b, info[n].service) != TriedCell(b, info[m].service)
  {
    assert Holds(tried, TriedCell(b, info[n].service), n) && Holds(tried, TriedCell(b, info[m].service), m);
  }

  // The state once both lists of entries have been read.
  lemma LoadedEntries(b: Buckets, s: State, ids: seq<Id>)
    requires Ok(b, s) && IsKeyOrder(ids, s.info)
    ensures var t := Serialize(s, ids);
            Numbered(b, LoadTried(b, LoadNew(t.newInfos), t.triedInfos), t.newInfos + t.triedInfos, |t.newInfos|)
  {
    hide Ok, Numbered, LoadTried;
    var t, all := Serialize(s, ids), Order(s, ids);
    var xs := t.newInfos + t.triedInfos;
    OrderIsPermutation(b, s, ids);
    SavedOrder(s, ids);
    NothingCollides(b, s, all, xs, |t.newInfos|);
    assert DistinctNets(t.newInfos) by {
      forall k | 0 <= k < |t.newInfos| ensures t.newInfos[k] == xs[k] {}
    }
    LoadedNew(b, t.newInfos);
    LoadedTried(b, LoadNew(t.newInfos), t.newInfos, t.triedInfos);
  }

  lemma IndicesLead(b: Buckets, s: State, ids: seq<Id>)
    requires NewOk(b, s.info, s.news) && IsKeyOrder(ids, s.info)
    ensures Indexed(Order(s, ids), |NewList(s.info, ids)|, s.news, Indices(s.info, ids))
  {
    ListsAreInInfo(s.info, ids);
    forall c | c in s.news
      ensures s.news[c] in Indices(s.info, ids)
      ensures 0 <= Indices(s.info, ids)[s.news[c]] < |NewList(s.info, ids)|
      ensures Order(s, ids)[Indices(s.info, ids)[s.news[c]]] == s.news[c]
    {
      hide NewList, TriedList, Indices, RefCountsOk;
      OwnerHasRefs(b, s.info, s.news, c);
      IndexFinds(s.info, ids, s.news[c]);
    }
  }

  // The entries of xs are those of s in the order `all`, the tried ones from m on.
  ghost predicate Listed(s: State, all: seq<Id>, xs: seq<Saved>, m: nat) {
    && Distinct(all) && (forall n :: n in all <==> n in s.info) && |xs| == |all| && m <= |all|
    && (forall k | 0 <= k < |all| ::
          all[k] in s.info && xs[k] == Save(s.info[all[k]]) && (s.info[all[k]].inTried <==> k >= m))
  }

  lemma ReadyToFill(b: Buckets, s: State, all: seq<Id>, m: nat, s0: State, xs: seq<Saved>)
    requires Listed(s, all, xs, m) && Numbered(b, s0, xs, m)
    ensures Renumbered(s, s0, all, m) && Filled(all, s.news, {}, s0, s0)
  {
    hide AddrOk, TriedOk;
    assert forall k :: CellsOf(map[], k) == {};
  }

  lemma SameRefs(all: seq<Id>, news: map<Cell, Id>, s0: State, s1: State, k: Id)
    requires Distinct(all) && Filled(all, news, news.Keys, s0, s1) && k < |all|
    ensures CellsOf(s1.news, k) == CellsOf(news, all[k])
  {
  }

  lemma {:induction false} PruneNothing(s: State, count: nat)
    requires forall n | n in s.info && !s.info[n].inTried :: s.info[n].refCount != 0
    ensures Prune(s, count) == s
  {
    if count > 0 { PruneNothing(s, count - 1); }
  }

  lemma SameEntries(b: Buckets, s: State, all: seq<Id>, m: nat, xs: seq<Saved>, s0: State, s1: State, k: Id)
    requires RefCountsOk(s.info, s.news) && Listed(s, all, xs, m) && Numbered(b, s0, xs, m)
    requires Filled(all, s.news, s.news.Keys, s0, s1) && k < |all|
    ensures SameEntry(s.info[all[k]], s1.info[k])
  {
    hide AddrOk, TriedOk;
    SameRefs(all, s.news, s0, s1, k);
    assert s1.info[k] == s0.info[k].(refCount := |CellsOf(s1.news, k)|);
  }

  lemma SameIds(b: Buckets, s: State, all: seq<Id>, m: nat, xs: seq<Saved>, s0: State, s1: State)
    requires Listed(s, all, xs, m) && Numbered(b, s0, xs, m) && Filled(all, s.news, s.news.Keys, s0, s1)
    ensures forall k: Id :: k in s1.info <==> k < |all|
    ensures SameTable(all, s.news, s1.news) && s1.tried == s0.tried
    ensures s1.nNew == m && s1.nTried == |all| - m && s1.idCount == |all| && s1.collisions == {}
  {
    hide AddrOk, TriedOk, CountedRefs, Distinct;
    assert s1.info.Keys == s0.info.Keys;
  }

  lemma FilledIsIsomorphic(b: Buckets, s: State, all: seq<Id>, m: nat, xs: seq<Saved>, s0: State, s1: State)
    requires TriedOk(b, s.info, s.tried) && RefCountsOk(s.info, s.news)
    requires Listed(s, all, xs, m) && s.nNew == m && s.nTried == |all| - m
    requires Numbered(b, s0, xs, m) && Filled(all, s.news, s.news.Keys, s0, s1)
    ensures Isomorphic(all, s, s1)
  {
    hide TriedOk, RefCountsOk, SameEntry, SameTable, Numbered, Filled;
    SameIds(b, s, all, m, xs, s0, s1);
    forall k: Id | k < |all| ensures SameEntry(s.info[all[k]], s1.info[k]) {
      SameEntries(b, s, all, m, xs, s0, s1, k);
    }
    SameTried(b, s, all, m, xs, s0);
  }

  lemma TriedCellKept(b: Buckets, s: State, all: seq<Id>, m: nat, xs: seq<Saved>, s0: State, c: Cell)
    requires TriedOk(b, s.info, s.tried) && Listed(s, all, xs, m) && Numbered(b, s0, xs, m) && c in s.tried
    ensures c in s0.tried
  {
    assert s.tried[c] in all;
    var k :| 0 <= k < |all| && all[k] == s.tried[c];
    assert s0.info[k].inTried && TriedCell(b, s0.info[k].service) == c;
  }

  lemma TriedCellCame(b: Buckets, s: State, all: seq<Id>, m: nat, xs: seq<Saved>, s0: State, c: Cell)
    requires TriedOk(b, s.info, s.tried) && Listed(s, all, xs, m) && Numbered(b, s0, xs, m) && c in s0.tried
    ensures c in s.tried && s0.tried[c] < |all| && all[s0.tried[c]] == s.tried[c]
  {
    var k: Id := s0.tried[c];
    assert Holds(s.tried, TriedCell(b, s.info[all[k]].service), all[k]);
  }

  lemma SameTried(b: Buckets, s: State, all: seq<Id>, m: nat, xs: seq<Saved>, s0: State)
    requires TriedOk(b, s.info, s.tried) && Listed(s, all, xs, m) && Numbered(b, s0, xs, m)
    ensures SameTable(all, s.tried, s0.tried)
  {
    hide TriedOk, Listed, Numbered;
    forall c | c in s.tried ensures c in s0.tried { TriedCellKept(b, s, all, m, xs, s0, c); }
    forall c | c in s0.tried ensures c in s.tried && s0.tried[c] < |all| && all[s0.tried[c]] == s.tried[c] {
      TriedCellCame(b, s, all, m, xs, s0, c);
    }
  }

  /* The manager read back meets the same conditions */

  ghost predicate ReadBack(s1: State, xs: seq<Saved>, m: nat) {
    && (forall k: Id :: k in s1.info <==> k < |xs|)
    && (forall k: Id | k < |xs| ::
          s1.info[k] == Restore(xs[k], k).(inTried := k >= m, refCount := |CellsOf(s1.news, k)|))
  }

  lemma FilledIsReadBack(b: Buckets, s: State, all: seq<Id>, m: nat, xs: seq<Saved>, s0: State, s1: State)
    requires Numbered(b, s0, xs, m) && Filled(all, s.news, s.news.Keys, s0, s1)
    ensures ReadBack(s1, xs, m)
  {
    hide AddrOk, TriedOk, CellsOf;
    assert s1.info.Keys == s0.info.Keys;
  }

  lemma ReadIndexesAreOk(b: Buckets, s: State, all: seq<Id>, m: nat, xs: seq<Saved>, s0: State, s1: State)
    requires Numbered(b, s0, xs, m) && Filled(all, s.news, s.news.Keys, s0, s1)
    ensures RandomOk(s1.info, s1.random) && AddrOk(s1.info, s1.addr) && TriedOk(b, s1.info, s1.tried)
  {
    FilledIsReadBack(b, s, all, m, xs, s0, s1);
    hide CellsOf, CountedRefs;
    assert s1.random == s0.random && s1.addr == s0.addr && s1.tried == s0.tried;
    KeepsServices(b, s0.info, s1.info, s0.addr, s0.tried);
    hide AddrOk, TriedOk;
  }

  lemma KeepsServices(b: Buckets, info: map<Id, AddrInfo>, info': map<Id, AddrInfo>, addr: map<NetAddr, Id>,
      tried: map<Cell, Id>)
    requires info.Keys == info'.Keys
    requires forall k | k in info :: info[k].service == info'[k].service && info[k].inTried == info'[k].inTried
    requires AddrOk(info, addr) && TriedOk(b, info, tried)
    ensures AddrOk(info', addr) && TriedOk(b, info', tried)
  {
  }

  lemma ReadCellsAreOk(b: Buckets, s: State, all: seq<Id>, s1: State)
    requires NewCellsOk(b, s.info, s.news) && Isomorphic(all, s, s1)
    ensures NewCellsOk(b, s1.info, s1.news)
  {
    forall c | c in s1.news
      ensures s1.news[c] in s1.info && !s1.info[s1.news[c]].inTried
      ensures c.bucket < NEW_BUCKETS && c == NewCell(b, s1.info[s1.news[c]].service, c.bucket)
    {
      var k := s1.news[c];
      assert c in s.news && all[k] == s.news[c] && SameEntry(s.info[all[k]], s1.info[k]);
    }
  }

  lemma RangeSize(lo: nat, hi: nat, s: set<Id>)
    requires lo <= hi && forall k: Id :: k in s <==> lo <= k < hi
    ensures |s| == hi - lo
  {
    var list := seq(hi - lo, k requires 0 <= k < hi - lo => lo + k);
    forall k | k in s ensures k in list { assert list[k - lo] == k; }
    ListSize(list, s);
  }

  lemma ReadCountsAreOk(s1: State, xs: seq<Saved>, m: nat)
    requires ReadBack(s1, xs, m) && m <= |xs|
    ensures CountsOk(s1.info, |xs| - m, m)
  {
    hide CellsOf;
    RangeSize(0, m, NewIds(s1.info));
    RangeSize(m, |xs|, TriedIds(s1.info));
  }

  lemma ReadEntriesAreOk(s: State, all: seq<Id>, m: nat, xs: seq<Saved>, s1: State)
    requires RefsOk(s.info, {}) && StampsOk(s.info) && Isomorphic(all, s, s1) && ReadBack(s1, xs, m)
    ensures RefsOk(s1.info, {}) && StampsOk(s1.info)
  {
    hide SameTable, CellsOf;
    forall k | k in s1.info
      ensures StampOk(s1.info[k]) && (!s1.info[k].inTried ==> 1 <= s1.info[k].refCount <= MAX_REFS)
    {
      assert all[k] in all && SameEntry(s.info[all[k]], s1.info[k]);
      assert s1.info[k].lastTry == 0;
    }
  }

  lemma FilledIsOk(b: Buckets, s: State, all: seq<Id>, m: nat, xs: seq<Saved>, s0: State, s1: State)
    requires Ok(b, s) && Listed(s, all, xs, m) && Isomorphic(all, s, s1)
    requires Numbered(b, s0, xs, m) && Filled(all, s.news, s.news.Keys, s0, s1)
    ensures Ok(b, s1)
  {
    hide RandomOk, AddrOk, TriedOk, NewCellsOk, RefsOk, CountsOk, StampsOk, Isomorphic, Numbered, Filled;
    SameIds(b, s, all, m, xs, s0, s1);
    FilledIsReadBack(b, s, all, m, xs, s0, s1);
    ReadIndexesAreOk(b, s, all, m, xs, s0, s1);
    ReadCellsAreOk(b, s, all, s1);
    ReadCountsAreOk(s1, xs, m);
    ReadEntriesAreOk(s, all, m, xs, s1);
  }

  // Nothing is lost: reading back what was written gives the same manager up to renumbering, and a consistent one.
  lemma RoundTrip(b: Buckets, s: State, ids: seq<Id>)
    requires BucketsOk(b) && Ok(b, s) && IsKeyOrder(ids, s.info)
    ensures Isomorphic(Order(s, ids), s, Unserialize(b, Serialize(s, ids)))
    ensures Ok(b, Unserialize(b, Serialize(s, ids)))
    ensures WellFormed(Serialize(s, ids)) && Usable(Serialize(s, ids))
  {
    hide Numbered, Filled, Renumbered, Indexed, LoadTried, LoadBuckets, NewList, TriedList, NewCellsOk, RefCountsOk,
         RefsOk, Isomorphic, Prune, BucketsOk;
    hide RandomOk, AddrOk, TriedOk, StampsOk, CountsOk, IdsOk, CollisionsOk;
    var t, all, m := Serialize(s, ids), Order(s, ids), |NewList(s.info, ids)|;
    var xs := t.newInfos + t.triedInfos;
    var s0 := LoadTried(b, LoadNew(t.newInfos), t.triedInfos);
    SavedOrder(s, ids);
    SerializeCounts(b, s, ids);
    OrderIsPermutation(b, s, ids);
    LoadedEntries(b, s, ids);
    assert Listed(s, all, xs, m);
    IndicesLead(b, s, ids);
    ReadyToFill(b, s, all, m, s0, xs);
    FillBuckets(b, s, s0, all, m, Indices(s.info, ids), NEW_BUCKETS);
    var s1 := LoadBuckets(b, s0, t.buckets);
    assert InBuckets(s.news, NEW_BUCKETS) == s.news.Keys by { PositionsInRange(b, s); }
    FilledIsIsomorphic(b, s, all, m, xs, s0, s1);
    FilledIsOk(b, s, all, m, xs, s0, s1);
    IsomorphicHasRefs(b, s, all, s1);
    PruneNothing(s1, s1.idCount);
  }

  lemma IsomorphicHasRefs(b: Buckets, s: State, all: seq<Id>, s1: State)
    requires Ok(b, s) && Isomorphic(all, s, s1)
    ensures forall n | n in s1.info && !s1.info[n].inTried :: s1.info[n].refCount != 0
  {
    forall n | n in s1.info && !s1.info[n].inTried ensures s1.info[n].refCount != 0 {
      assert all[n] in all && SameEntry(s.info[all[n]], s1.info[n]);
    }
  }
}
