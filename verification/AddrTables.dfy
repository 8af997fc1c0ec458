/**
 The address manager's five indexes as one value, the conditions its consistency check
 looks for, and the primitive moves every operation is made of.
 */
module AddrTables {
  import opened Options

  type NetAddr = nat
  type Id = nat

  datatype Service = Service(net: NetAddr, port: nat)
  datatype Cell = Cell(bucket: nat, pos: nat)

  const NEW_BUCKETS: nat := 1024
  const TRIED_BUCKETS: nat := 256
  const BUCKET_SIZE: nat := 64
  const MAX_REFS: nat := 8
  const MAX_COLLISIONS: nat := 10

  // The keyed hash functions that place an address, and what the network code says of it.
  datatype Buckets = Buckets(tried: Service -> nat, introduced: (Service, NetAddr) -> nat,
                             position: (Service, bool, nat) -> nat, routable: NetAddr -> bool, valid: NetAddr -> bool)

  ghost predicate BucketsOk(b: Buckets) {
    && (forall a :: b.tried(a) < TRIED_BUCKETS)
    && (forall a, source :: b.introduced(a, source) < NEW_BUCKETS)
    && (forall a, isNew, bucket :: b.position(a, isNew, bucket) < BUCKET_SIZE)
  }

  function TriedCell(b: Buckets, a: Service): Cell {
    Cell(b.tried(a), b.position(a, false, b.tried(a)))
  }

  function NewCell(b: Buckets, a: Service, bucket: nat): Cell {
    Cell(bucket, b.position(a, true, bucket))
  }

  datatype AddrInfo = AddrInfo(service: Service, time: int, services: set<nat>, source: NetAddr,
                               lastTry: int, lastCountAttempt: int, lastSuccess: int, attempts: nat,
                               refCount: int, inTried: bool, randomPos: int)

  // The cells of the two tables that hold an id; all others hold -1 in the source.
  datatype State = State(info: map<Id, AddrInfo>, addr: map<NetAddr, Id>, random: seq<Id>,
                         tried: map<Cell, Id>, news: map<Cell, Id>, nTried: int, nNew: int,
                         idCount: nat, lastGood: int, collisions: set<Id>)

  const EMPTY := State(map[], map[], [], map[], map[], 0, 0, 0, 1, {})

  /* ----- The consistency conditions ----- */

  predicate RandomOk(info: map<Id, AddrInfo>, random: seq<Id>) {
    && (forall i | 0 <= i < |random| :: random[i] in info && info[random[i]].randomPos == i)
    && (forall n | n in info :: 0 <= info[n].randomPos < |random| && random[info[n].randomPos] == n)
  }

  predicate AddrOk(info: map<Id, AddrInfo>, addr: map<NetAddr, Id>) {
    && (forall n | n in info :: info[n].service.net in addr && addr[info[n].service.net] == n)
    && (forall a | a in addr :: addr[a] in info && info[addr[a]].service.net == a)
  }

  predicate TriedOk(b: Buckets, info: map<Id, AddrInfo>, tried: map<Cell, Id>) {
    && (forall c | c in tried ::
          tried[c] in info && info[tried[c]].inTried && c == TriedCell(b, info[tried[c]].service))
    && (forall n | n in info && info[n].inTried :: Holds(tried, TriedCell(b, info[n].service), n))
  }

  predicate Holds(table: map<Cell, Id>, c: Cell, n: Id) {
    c in table && table[c] == n
  }

  function CellsOf(table: map<Cell, Id>, n: Id): set<Cell> {
    set c | c in table && table[c] == n
  }

  predicate NewCellsOk(b: Buckets, info: map<Id, AddrInfo>, news: map<Cell, Id>) {
    forall c | c in news ::
      && news[c] in info && !info[news[c]].inTried
      && c.bucket < NEW_BUCKETS && c == NewCell(b, info[news[c]].service, c.bucket)
  }

  predicate RefCountsOk(info: map<Id, AddrInfo>, news: map<Cell, Id>) {
    forall n | n in info :: info[n].refCount == |CellsOf(news, n)|
  }

  predicate NewOk(b: Buckets, info: map<Id, AddrInfo>, news: map<Cell, Id>) {
    NewCellsOk(b, info, news) && RefCountsOk(info, news)
  }

  // A loose entry is between tables: an entry of neither.
  predicate RefsOk(info: map<Id, AddrInfo>, loose: set<Id>) {
    && (forall n | n in loose :: n in info && !info[n].inTried && info[n].refCount == 0)
    && (forall n | n in info && n !in loose && !info[n].inTried :: 1 <= info[n].refCount <= MAX_REFS)
  }

  function TriedIds(info: map<Id, AddrInfo>): set<Id> {
    set n | n in info && info[n].inTried
  }

  function NewIds(info: map<Id, AddrInfo>): set<Id> {
    set n | n in info && !info[n].inTried
  }

  predicate CountsOk(info: map<Id, AddrInfo>, nTried: int, nNew: int) {
    nTried == |TriedIds(info)| && nNew == |NewIds(info)|
  }

  predicate StampOk(i: AddrInfo) {
    i.lastTry >= 0 && i.lastSuccess >= 0 && (i.inTried ==> i.lastSuccess != 0)
  }

  predicate StampsOk(info: map<Id, AddrInfo>) {
    forall n | n in info :: StampOk(info[n])
  }

  predicate IdsOk(s: State) {
    forall n | n in s.info :: n < s.idCount
  }

  // Whoever waits to enter the tried table waits for a cell that is taken.
  predicate CollisionsOk(b: Buckets, s: State) {
    && |s.collisions| <= MAX_COLLISIONS
    && (forall n | n in s.collisions :: n < s.idCount && (n in s.info ==> TriedCell(b, s.info[n].service) in s.tried))
  }

  predicate Consistent(b: Buckets, s: State, loose: set<Id>) {
    && RandomOk(s.info, s.random)
    && AddrOk(s.info, s.addr)
    && TriedOk(b, s.info, s.tried)
    && NewOk(b, s.info, s.news)
    && RefsOk(s.info, loose)
    && CountsOk(s.info, s.nTried, s.nNew)
    && StampsOk(s.info)
    && IdsOk(s)
  }

  // Check_ returns zero, and no collision waits for a free cell.
  predicate Ok(b: Buckets, s: State) {
    Consistent(b, s, {}) && CollisionsOk(b, s)
  }

  lemma EmptyIsOk(b: Buckets)
    ensures Ok(b, EMPTY)
  {
  }

  // What no operation does: free a tried cell, or let an id name another address.
  predicate Evolves(s: State, s': State) {
    && s.tried.Keys <= s'.tried.Keys
    && s.idCount <= s'.idCount
    && (forall n | n in s'.info && n < s.idCount :: n in s.info && s'.info[n].service == s.info[n].service)
  }

  lemma EvolvesKeepsCollisions(b: Buckets, s: State, s': State)
    requires CollisionsOk(b, s) && Evolves(s, s') && s'.collisions <= s.collisions && |s'.collisions| <= |s.collisions|
    ensures CollisionsOk(b, s')
  {
  }

  /* ----- One entry changes: what each index needs of it ----- */

  lemma RandomKept(info: map<Id, AddrInfo>, random: seq<Id>, n: Id, i: AddrInfo)
    requires RandomOk(info, random) && n in info && i.randomPos == info[n].randomPos
    ensures RandomOk(info[n := i], random)
  {
  }

  lemma AddrKept(info: map<Id, AddrInfo>, addr: map<NetAddr, Id>, n: Id, i: AddrInfo)
    requires AddrOk(info, addr) && n in info && i.service == info[n].service
    ensures AddrOk(info[n := i], addr)
  {
  }

  lemma TriedKept(b: Buckets, info: map<Id, AddrInfo>, tried: map<Cell, Id>, n: Id, i: AddrInfo)
    requires TriedOk(b, info, tried) && n in info && i.service == info[n].service && i.inTried == info[n].inTried
    ensures TriedOk(b, info[n := i], tried)
  {
  }

  lemma NewKept(b: Buckets, info: map<Id, AddrInfo>, news: map<Cell, Id>, n: Id, i: AddrInfo)
    requires NewOk(b, info, news) && n in info && i.service == info[n].service && i.refCount == info[n].refCount
    requires i.inTried == info[n].inTried || (forall c | c in news :: news[c] != n)
    ensures NewOk(b, info[n := i], news)
  {
  }

  lemma CountsKept(info: map<Id, AddrInfo>, nTried: int, nNew: int, n: Id, i: AddrInfo)
    requires CountsOk(info, nTried, nNew) && n in info
    ensures i.inTried == info[n].inTried ==> CountsOk(info[n := i], nTried, nNew)
    ensures i.inTried && !info[n].inTried ==> CountsOk(info[n := i], nTried + 1, nNew - 1)
    ensures !i.inTried && info[n].inTried ==> CountsOk(info[n := i], nTried - 1, nNew + 1)
  {
    hide TriedIds, NewIds;
    TriedIdsKept(info, n, i);
    NewIdsKept(info, n, i);
  }

  lemma TriedIdsKept(info: map<Id, AddrInfo>, n: Id, i: AddrInfo)
    requires n in info
    ensures |TriedIds(info[n := i])|
         == |TriedIds(info)| + (if i.inTried then 1 else 0) - (if info[n].inTried then 1 else 0)
  {
    var was, now := TriedIds(info), TriedIds(info[n := i]);
    assert now - {n} == was - {n};
    Without(was, n);
    Without(now, n);
  }

  lemma NewIdsKept(info: map<Id, AddrInfo>, n: Id, i: AddrInfo)
    requires n in info
    ensures |NewIds(info[n := i])|
         == |NewIds(info)| + (if i.inTried then 0 else 1) - (if info[n].inTried then 0 else 1)
  {
    var was, now := NewIds(info), NewIds(info[n := i]);
    assert now - {n} == was - {n};
    Without(was, n);
    Without(now, n);
  }

  lemma Without(s: set<Id>, n: Id)
    ensures |s - {n}| == |s| - if n in s then 1 else 0
  {
    if n !in s { assert s - {n} == s; }
  }

  /* ----- Moves ----- */

  // Changes of stamps that no index can see.
  function Touch(s: State, n: Id, i: AddrInfo): State {
    s.(info := s.info[n := i])
  }

  predicate SamePlace(i: AddrInfo, j: AddrInfo) {
    i.service == j.service && i.refCount == j.refCount && i.inTried == j.inTried && i.randomPos == j.randomPos
  }

  lemma TouchIsConsistent(b: Buckets, s: State, loose: set<Id>, n: Id, i: AddrInfo)
    requires Consistent(b, s, loose) && n in s.info && SamePlace(i, s.info[n]) && StampOk(i)
    ensures Consistent(b, Touch(s, n, i), loose)
  {
    hide RandomOk, AddrOk, TriedOk, NewOk, CountsOk;
    RandomKept(s.info, s.random, n, i);
    AddrKept(s.info, s.addr, n, i);
    TriedKept(b, s.info, s.tried, n, i);
    NewKept(b, s.info, s.news, n, i);
    CountsKept(s.info, s.nTried, s.nNew, n, i);
  }

  // A new entry, still loose.
  function Create(s: State, i: AddrInfo): State {
    s.(info := s.info[s.idCount := i.(refCount := 0, inTried := false, randomPos := |s.random|)],
       addr := s.addr[i.service.net := s.idCount], random := s.random + [s.idCount],
       nNew := s.nNew + 1, idCount := s.idCount + 1)
  }

  lemma RandomCreated(info: map<Id, AddrInfo>, random: seq<Id>, n: Id, i: AddrInfo)
    requires RandomOk(info, random) && n !in info && i.randomPos == |random|
    ensures RandomOk(info[n := i], random + [n])
  {
    var info', random' := info[n := i], random + [n];
    forall k | 0 <= k < |random'| ensures random'[k] in info' && info'[random'[k]].randomPos == k {
      if k < |random| { assert random'[k] == random[k]; }
    }
    forall m | m in info' ensures 0 <= info'[m].randomPos < |random'| && random'[info'[m].randomPos] == m {
      if m != n { assert random[info[m].randomPos] == m; }
    }
  }

  lemma AddrCreated(info: map<Id, AddrInfo>, addr: map<NetAddr, Id>, n: Id, i: AddrInfo)
    requires AddrOk(info, addr) && n !in info && i.service.net !in addr
    ensures AddrOk(info[n := i], addr[i.service.net := n])
  {
  }

  lemma TablesCreated(b: Buckets, info: map<Id, AddrInfo>, tried: map<Cell, Id>, news: map<Cell, Id>, n: Id,
      i: AddrInfo)
    requires TriedOk(b, info, tried) && NewOk(b, info, news) && n !in info && !i.inTried && i.refCount == 0
    ensures TriedOk(b, info[n := i], tried) && NewOk(b, info[n := i], news)
  {
    assert CellsOf(news, n) == {};
  }

  lemma CountsCreated(info: map<Id, AddrInfo>, nTried: int, nNew: int, n: Id, i: AddrInfo)
    requires CountsOk(info, nTried, nNew) && n !in info && !i.inTried
    ensures CountsOk(info[n := i], nTried, nNew + 1)
  {
    assert TriedIds(info[n := i]) == TriedIds(info) && NewIds(info[n := i]) == NewIds(info) + {n};
  }

  lemma CreateIsConsistent(b: Buckets, s: State, i: AddrInfo)
    requires Consistent(b, s, {}) && i.service.net !in s.addr && i.lastTry >= 0 && i.lastSuccess >= 0
    ensures Consistent(b, Create(s, i), {s.idCount}) && Evolves(s, Create(s, i))
  {
    hide RandomOk, AddrOk, TriedOk, NewOk, CountsOk;
    var n := s.idCount;
    var j := Create(s, i).info[n];
    RandomCreated(s.info, s.random, n, j);
    AddrCreated(s.info, s.addr, n, j);
    TablesCreated(b, s.info, s.tried, s.news, n, j);
    CountsCreated(s.info, s.nTried, s.nNew, n, j);
  }

  // Swaps two places of the random order.
  function SwapRandom(s: State, p: int, q: int): State {
    if p == q || !(0 <= p < |s.random| && 0 <= q < |s.random| && s.random[p] in s.info && s.random[q] in s.info) then s
    else
      var m, n := s.random[p], s.random[q];
      var info1 := s.info[m := s.info[m].(randomPos := q)];
      s.(info := info1[n := info1[n].(randomPos := p)], random := s.random[p := n][q := m])
  }

  // Only the positions differ.
  predicate SameButPositions(info: map<Id, AddrInfo>, info': map<Id, AddrInfo>) {
    && info'.Keys == info.Keys
    && (forall n | n in info :: info'[n] == info[n].(randomPos := info'[n].randomPos))
  }

  lemma AddrIgnoresPositions(info: map<Id, AddrInfo>, info': map<Id, AddrInfo>, addr: map<NetAddr, Id>)
    requires AddrOk(info, addr) && SameButPositions(info, info')
    ensures AddrOk(info', addr)
  {
    forall a | a in addr ensures addr[a] in info' && info'[addr[a]].service.net == a {
      assert info'[addr[a]] == info[addr[a]].(randomPos := info'[addr[a]].randomPos);
    }
  }

  lemma TriedIgnoresPositions(b: Buckets, info: map<Id, AddrInfo>, info': map<Id, AddrInfo>, tried: map<Cell, Id>)
    requires TriedOk(b, info, tried) && SameButPositions(info, info')
    ensures TriedOk(b, info', tried)
  {
    forall c | c in tried ensures info'[tried[c]].inTried && c == TriedCell(b, info'[tried[c]].service) {
      assert info'[tried[c]] == info[tried[c]].(randomPos := info'[tried[c]].randomPos);
    }
  }

  lemma NewIgnoresPositions(b: Buckets, info: map<Id, AddrInfo>, info': map<Id, AddrInfo>, news: map<Cell, Id>)
    requires NewOk(b, info, news) && SameButPositions(info, info')
    ensures NewOk(b, info', news)
  {
    forall c | c in news ensures !info'[news[c]].inTried && c == NewCell(b, info'[news[c]].service, c.bucket) {
      assert info'[news[c]] == info[news[c]].(randomPos := info'[news[c]].randomPos);
    }
  }

  lemma PositionsDoNotMatter(b: Buckets, s: State, s': State, loose: set<Id>)
    requires Consistent(b, s, loose) && SameButPositions(s.info, s'.info) && RandomOk(s'.info, s'.random)
    requires s' == s.(info := s'.info, random := s'.random)
    ensures Consistent(b, s', loose)
  {
    hide RandomOk, AddrOk, TriedOk, NewOk;
    AddrIgnoresPositions(s.info, s'.info, s.addr);
    TriedIgnoresPositions(b, s.info, s'.info, s.tried);
    NewIgnoresPositions(b, s.info, s'.info, s.news);
    assert TriedIds(s'.info) == TriedIds(s.info) && NewIds(s'.info) == NewIds(s.info);
  }

  lemma SwapIsConsistent(b: Buckets, s: State, p: nat, q: nat, loose: set<Id>)
    requires Consistent(b, s, loose) && p < |s.random| && q < |s.random|
    ensures Consistent(b, SwapRandom(s, p, q), loose) && SameButPositions(s.info, SwapRandom(s, p, q).info)
  {
    if p != q {
      SwapKeepsRandom(s, p, q);
      PositionsDoNotMatter(b, s, SwapRandom(s, p, q), loose);
    }
  }

  lemma SwapKeepsRandom(s: State, p: nat, q: nat)
    requires RandomOk(s.info, s.random) && p < |s.random| && q < |s.random| && p != q
    ensures RandomOk(SwapRandom(s, p, q).info, SwapRandom(s, p, q).random)
    ensures SameButPositions(s.info, SwapRandom(s, p, q).info)
  {
    var m, n := s.random[p], s.random[q];
    var info', random' := SwapRandom(s, p, q).info, SwapRandom(s, p, q).random;
    assert m != n && s.info[m].randomPos == p && s.info[n].randomPos == q;
    forall k | 0 <= k < |random'| ensures random'[k] in info' && info'[random'[k]].randomPos == k {
      SwappedAt(s, p, q, s.random[k]);
    }
    forall k | k in info' ensures 0 <= info'[k].randomPos < |random'| && random'[info'[k].randomPos] == k {
      SwappedAt(s, p, q, k);
    }
  }

  lemma SwappedAt(s: State, p: nat, q: nat, k: Id)
    requires RandomOk(s.info, s.random) && p < |s.random| && q < |s.random| && p != q && k in s.info
    ensures var s' := SwapRandom(s, p, q); var at := s.info[k].randomPos;
            && 0 <= at < |s'.random| == |s.random| && s.random[at] == k
            && s'.info[k].randomPos == (if at == p then q else if at == q then p else at)
            && s'.random[s'.info[k].randomPos] == k
  {
  }

  // Removes a loose entry: it is swapped to the end of the random order first.
  function Delete(s: State, n: Id): State {
    if n !in s.info || s.random == [] then s
    else
      var s1 := SwapRandom(s, s.info[n].randomPos, |s.random| - 1);
      s1.(info := s1.info - {n}, addr := s1.addr - {s.info[n].service.net}, random := s1.random[..|s1.random| - 1],
          nNew := s1.nNew - 1)
  }

  lemma RandomPopped(info: map<Id, AddrInfo>, random: seq<Id>, n: Id)
    requires RandomOk(info, random) && n in info && info[n].randomPos == |random| - 1
    ensures RandomOk(info - {n}, random[..|random| - 1])
  {
  }

  lemma AddrDeleted(info: map<Id, AddrInfo>, addr: map<NetAddr, Id>, n: Id)
    requires AddrOk(info, addr) && n in info
    ensures AddrOk(info - {n}, addr - {info[n].service.net})
  {
  }

  lemma TablesDeleted(b: Buckets, info: map<Id, AddrInfo>, tried: map<Cell, Id>, news: map<Cell, Id>, n: Id)
    requires TriedOk(b, info, tried) && NewOk(b, info, news) && n in info && !info[n].inTried && info[n].refCount == 0
    ensures TriedOk(b, info - {n}, tried) && NewOk(b, info - {n}, news)
  {
    forall c | c in news ensures news[c] != n {
      assert c in CellsOf(news, news[c]);
    }
  }

  lemma CountsDeleted(info: map<Id, AddrInfo>, nTried: int, nNew: int, n: Id)
    requires CountsOk(info, nTried, nNew) && n in info && !info[n].inTried
    ensures CountsOk(info - {n}, nTried, nNew - 1)
  {
    assert n in NewIds(info);
    assert TriedIds(info - {n}) == TriedIds(info) && NewIds(info - {n}) == NewIds(info) - {n};
  }

  lemma DeleteLast(b: Buckets, s: State, loose: set<Id>, n: Id)
    requires Consistent(b, s, loose) && n in loose && s.info[n].randomPos == |s.random| - 1
    ensures Consistent(b, s.(info := s.info - {n}, addr := s.addr - {s.info[n].service.net},
                             random := s.random[..|s.random| - 1], nNew := s.nNew - 1), loose - {n})
  {
    hide RandomOk, AddrOk, TriedOk, NewOk, CountsOk;
    RandomPopped(s.info, s.random, n);
    AddrDeleted(s.info, s.addr, n);
    TablesDeleted(b, s.info, s.tried, s.news, n);
    CountsDeleted(s.info, s.nTried, s.nNew, n);
  }

  lemma HasPosition(info: map<Id, AddrInfo>, random: seq<Id>, n: Id)
    requires RandomOk(info, random) && n in info
    ensures 0 <= info[n].randomPos < |random| && random[info[n].randomPos] == n
  {
  }

  lemma RandomAt(info: map<Id, AddrInfo>, random: seq<Id>, i: nat)
    requires RandomOk(info, random) && i < |random|
    ensures random[i] in info
  {
  }

  lemma SwapToEnd(s: State, n: Id)
    requires RandomOk(s.info, s.random) && n in s.info
    ensures 0 <= s.info[n].randomPos < |s.random|
    ensures var s1 := SwapRandom(s, s.info[n].randomPos, |s.random| - 1);
            s1.info.Keys == s.info.Keys && s1.info[n] == s.info[n].(randomPos := |s.random| - 1) &&
                |s1.random| == |s.random|
  {
    HasPosition(s.info, s.random, n);
    var p, q := s.info[n].randomPos, |s.random| - 1;
    if p != q { SwappedAt(s, p, q, n); }
  }

  lemma SwapAnyKeepsRandom(s: State, p: nat, q: nat)
    requires RandomOk(s.info, s.random) && p < |s.random| && q < |s.random|
    ensures RandomOk(SwapRandom(s, p, q).info, SwapRandom(s, p, q).random)
  {
    if p != q { SwapKeepsRandom(s, p, q); }
  }

  lemma DeleteKeepsRandom(s: State, n: Id)
    requires RandomOk(s.info, s.random) && n in s.info
    ensures RandomOk(Delete(s, n).info, Delete(s, n).random)
  {
    hide RandomOk, SwapRandom, SameButPositions;
    SwapToEnd(s, n);
    var p, q := s.info[n].randomPos, |s.random| - 1;
    SwapAnyKeepsRandom(s, p, q);
    RandomPopped(SwapRandom(s, p, q).info, SwapRandom(s, p, q).random, n);
  }

  lemma DeleteIsConsistent(b: Buckets, s: State, loose: set<Id>, n: Id)
    requires Consistent(b, s, loose) && n in loose
    ensures n in s.info
    ensures Consistent(b, Delete(s, n), loose - {n})
    ensures SameButPositions(s.info - {n}, Delete(s, n).info)
  {
    hide RandomOk, AddrOk, TriedOk, NewOk, CountsOk, StampsOk, SwapRandom;
    SwapToEnd(s, n);
    var p, q := s.info[n].randomPos, |s.random| - 1;
    SwapIsConsistent(b, s, p, q, loose);
    SwapFrame(s, p, q);
    DeleteLast(b, SwapRandom(s, p, q), loose, n);
  }

  // Takes one cell of the new table from its entry.
  function DropRef(s: State, c: Cell): State {
    if c !in s.news || s.news[c] !in s.info then s
    else
      var n := s.news[c];
      s.(info := s.info[n := s.info[n].(refCount := s.info[n].refCount - 1)], news := s.news - {c})
  }

  lemma NewDropped(b: Buckets, info: map<Id, AddrInfo>, news: map<Cell, Id>, c: Cell, i: AddrInfo)
    requires NewOk(b, info, news) && c in news && i == info[news[c]].(refCount := info[news[c]].refCount - 1)
    ensures NewOk(b, info[news[c] := i], news - {c})
    ensures 0 <= i.refCount && !i.inTried
  {
    assert c in CellsOf(news, news[c]);
    RefDropped(info, news, c, i);
    hide RefCountsOk;
  }

  lemma RefDropped(info: map<Id, AddrInfo>, news: map<Cell, Id>, c: Cell, i: AddrInfo)
    requires RefCountsOk(info, news) && c in news && news[c] in info && i.refCount == info[news[c]].refCount - 1
    ensures RefCountsOk(info[news[c] := i], news - {c})
  {
    var news' := news - {c};
    assert c in CellsOf(news, news[c]);
    forall m | m in info
      ensures CellsOf(news', m) == if m == news[c] then CellsOf(news, m) - {c} else CellsOf(news, m)
    {
    }
  }

  lemma OwnerHasRefs(b: Buckets, info: map<Id, AddrInfo>, news: map<Cell, Id>, c: Cell)
    requires NewOk(b, info, news) && c in news
    ensures news[c] in info && !info[news[c]].inTried && info[news[c]].refCount >= 1
  {
    assert c in CellsOf(news, news[c]);
  }

  lemma DropRefIsConsistent(b: Buckets, s: State, loose: set<Id>, c: Cell)
    requires Consistent(b, s, loose) && c in s.news
    ensures s.news[c] in s.info && s.news[c] !in loose
    ensures Consistent(b, DropRef(s, c), if s.info[s.news[c]].refCount == 1 then loose + {s.news[c]} else loose)
  {
    hide RandomOk, AddrOk, TriedOk, NewOk, CountsOk;
    OwnerHasRefs(b, s.info, s.news, c);
    var n := s.news[c];
    var i := s.info[n].(refCount := s.info[n].refCount - 1);
    NewDropped(b, s.info, s.news, c, i);
    RandomKept(s.info, s.random, n, i);
    AddrKept(s.info, s.addr, n, i);
    TriedKept(b, s.info, s.tried, n, i);
    CountsKept(s.info, s.nTried, s.nNew, n, i);
  }

  // Frees a cell of the new table, deleting its entry with its last reference.
  function ClearNew(s: State, c: Cell): State {
    if c !in s.news || s.news[c] !in s.info then s
    else
      var s1, n := DropRef(s, c), s.news[c];
      if s1.info[n].refCount == 0 then Delete(s1, n) else s1
  }

  lemma ClearNewIsConsistent(b: Buckets, s: State, loose: set<Id>, c: Cell)
    requires Consistent(b, s, loose)
    ensures c in s.news ==> s.news[c] in s.info && s.news[c] !in loose
    ensures Consistent(b, ClearNew(s, c), loose)
  {
    hide RandomOk, AddrOk, TriedOk, NewOk, CountsOk, StampsOk;
    if c in s.news {
      var n := s.news[c];
      DropRefIsConsistent(b, s, loose, c);
      if s.info[n].refCount == 1 {
        DeleteIsConsistent(b, DropRef(s, c), loose + {n}, n);
        assert loose + {n} - {n} == loose;
      }
    }
  }

  // What clearing a cell does to the entries: its holder aside, only positions change.
  lemma ClearNewFrame(s: State, c: Cell)
    requires c in s.news ==> s.news[c] in s.info
    ensures var s' := ClearNew(s, c);
            && s'.news == s.news - {c} && s'.tried == s.tried && s'.nTried == s.nTried
            && s'.idCount == s.idCount && s'.collisions == s.collisions && s'.lastGood == s.lastGood
            && s'.info.Keys <= s.info.Keys
            && (forall n | n in s'.info :: s'.info[n].service == s.info[n].service)
            && (forall n | n in s.info && !Holds(s.news, c, n) ::
                  n in s'.info && s'.info[n] == s.info[n].(randomPos := s'.info[n].randomPos))
  {
    if c in s.news {
      DeleteFrame(DropRef(s, c), s.news[c]);
    } else {
      assert s.news - {c} == s.news;
    }
  }

  lemma DeleteFrame(s: State, n: Id)
    ensures var s' := Delete(s, n);
            && s'.news == s.news && s'.tried == s.tried && s'.nTried == s.nTried
            && s'.idCount == s.idCount && s'.collisions == s.collisions && s'.lastGood == s.lastGood
            && s.info.Keys - {n} <= s'.info.Keys <= s.info.Keys
            && (forall m | m in s'.info :: s'.info[m] == s.info[m].(randomPos := s'.info[m].randomPos))
  {
    hide SwapRandom;
    if n in s.info { SwapFrame(s, s.info[n].randomPos, |s.random| - 1); }
  }

  lemma SwapFrame(s: State, p: int, q: int)
    ensures var s' := SwapRandom(s, p, q);
            && s' == s.(info := s'.info, random := s'.random) && s'.info.Keys == s.info.Keys
            && (forall m | m in s'.info :: s'.info[m] == s.info[m].(randomPos := s'.info[m].randomPos))
  {
  }

  // Gives an entry of the new table one more cell.
  function Attach(s: State, n: Id, c: Cell): State {
    if n !in s.info then s
    else s.(info := s.info[n := s.info[n].(refCount := s.info[n].refCount + 1)], news := s.news[c := n])
  }

  lemma NewAttached(b: Buckets, info: map<Id, AddrInfo>, news: map<Cell, Id>, n: Id, c: Cell, i: AddrInfo)
    requires NewOk(b, info, news) && n in info && !info[n].inTried && c !in news
    requires c.bucket < NEW_BUCKETS && c == NewCell(b, info[n].service, c.bucket)
    requires i == info[n].(refCount := info[n].refCount + 1)
    ensures NewOk(b, info[n := i], news[c := n])
  {
    assert RefCountsOk(info[n := i], news[c := n]) by { RefAttached(info, news, n, c, i); }
    hide RefCountsOk;
  }

  lemma CellsPut(news: map<Cell, Id>, n: Id, c: Cell, m: Id)
    requires c !in news
    ensures CellsOf(news[c := n], m) == if m == n then CellsOf(news, n) + {c} else CellsOf(news, m)
  {
  }

  lemma RefAttached(info: map<Id, AddrInfo>, news: map<Cell, Id>, n: Id, c: Cell, i: AddrInfo)
    requires RefCountsOk(info, news) && n in info && c !in news && i.refCount == info[n].refCount + 1
    ensures RefCountsOk(info[n := i], news[c := n])
  {
    forall m | m in info ensures info[n := i][m].refCount == |CellsOf(news[c := n], m)| {
      assert info[m].refCount == |CellsOf(news, m)|;
      CellsPut(news, n, c, m);
    }
  }

  lemma AttachIsConsistent(b: Buckets, s: State, loose: set<Id>, n: Id, c: Cell)
    requires Consistent(b, s, loose) && n in s.info && !s.info[n].inTried && s.info[n].refCount < MAX_REFS
    requires c !in s.news && c.bucket < NEW_BUCKETS && c == NewCell(b, s.info[n].service, c.bucket)
    ensures Consistent(b, Attach(s, n, c), loose - {n})
  {
    hide RandomOk, AddrOk, TriedOk, NewOk, CountsOk;
    var i := s.info[n].(refCount := s.info[n].refCount + 1);
    NewAttached(b, s.info, s.news, n, c, i);
    RandomKept(s.info, s.random, n, i);
    AddrKept(s.info, s.addr, n, i);
    TriedKept(b, s.info, s.tried, n, i);
    CountsKept(s.info, s.nTried, s.nNew, n, i);
  }

  // Takes all cells of the new table from an entry.
  function Detach(s: State, n: Id): State {
    if n !in s.info then s
    else s.(info := s.info[n := s.info[n].(refCount := 0)], news := s.news - CellsOf(s.news, n))
  }

  lemma NewDetached(b: Buckets, info: map<Id, AddrInfo>, news: map<Cell, Id>, n: Id)
    requires NewOk(b, info, news) && n in info
    ensures NewOk(b, info[n := info[n].(refCount := 0)], news - CellsOf(news, n))
  {
    var info', news' := info[n := info[n].(refCount := 0)], news - CellsOf(news, n);
    assert RefCountsOk(info', news') by {
      forall m | m in info ensures CellsOf(news', m) == if m == n then {} else CellsOf(news, m) {}
    }
    hide RefCountsOk;
  }

  lemma DetachIsConsistent(b: Buckets, s: State, n: Id)
    requires Consistent(b, s, {}) && n in s.info && !s.info[n].inTried
    ensures Consistent(b, Detach(s, n), {n})
  {
    hide RandomOk, AddrOk, TriedOk, NewOk, CountsOk;
    var i := s.info[n].(refCount := 0);
    NewDetached(b, s.info, s.news, n);
    RandomKept(s.info, s.random, n, i);
    AddrKept(s.info, s.addr, n, i);
    TriedKept(b, s.info, s.tried, n, i);
    CountsKept(s.info, s.nTried, s.nNew, n, i);
  }

  // Takes its cell of the tried table from an entry.
  function Untry(s: State, c: Cell): State {
    if c !in s.tried || s.tried[c] !in s.info then s
    else
      var n := s.tried[c];
      s.(info := s.info[n := s.info[n].(inTried := false)], tried := s.tried - {c}, nTried := s.nTried - 1,
          nNew := s.nNew + 1)
  }

  lemma TriedRemoved(b: Buckets, info: map<Id, AddrInfo>, tried: map<Cell, Id>, c: Cell)
    requires TriedOk(b, info, tried) && c in tried
    ensures TriedOk(b, info[tried[c] := info[tried[c]].(inTried := false)], tried - {c})
  {
  }

  lemma OwnerIsTried(b: Buckets, info: map<Id, AddrInfo>, tried: map<Cell, Id>, news: map<Cell, Id>, c: Cell)
    requires TriedOk(b, info, tried) && NewOk(b, info, news) && c in tried
    ensures tried[c] in info && info[tried[c]].inTried && info[tried[c]].refCount == 0
    ensures forall d | d in news :: news[d] != tried[c]
  {
    assert CellsOf(news, tried[c]) == {};
  }

  lemma UntryIsConsistent(b: Buckets, s: State, loose: set<Id>, c: Cell)
    requires Consistent(b, s, loose) && c in s.tried
    ensures s.tried[c] in s.info && s.tried[c] !in loose && s.info[s.tried[c]].inTried
    ensures Consistent(b, Untry(s, c), loose + {s.tried[c]})
  {
    hide RandomOk, AddrOk, TriedOk, NewOk, CountsOk;
    OwnerIsTried(b, s.info, s.tried, s.news, c);
    var n := s.tried[c];
    var i := s.info[n].(inTried := false);
    TriedRemoved(b, s.info, s.tried, c);
    RandomKept(s.info, s.random, n, i);
    AddrKept(s.info, s.addr, n, i);
    NewKept(b, s.info, s.news, n, i);
    CountsKept(s.info, s.nTried, s.nNew, n, i);
  }

  // Gives a loose entry its cell of the tried table.
  function Try(s: State, n: Id, c: Cell): State {
    if n !in s.info then s
    else s.(info := s.info[n := s.info[n].(inTried := true)], tried := s.tried[c := n], nTried := s.nTried + 1,
            nNew := s.nNew - 1)
  }

  lemma TriedAdded(b: Buckets, info: map<Id, AddrInfo>, tried: map<Cell, Id>, n: Id, c: Cell)
    requires TriedOk(b, info, tried) && n in info && c !in tried && c == TriedCell(b, info[n].service)
    ensures TriedOk(b, info[n := info[n].(inTried := true)], tried[c := n])
  {
  }

  lemma NoRefsNoCells(b: Buckets, info: map<Id, AddrInfo>, news: map<Cell, Id>, n: Id)
    requires NewOk(b, info, news) && n in info && info[n].refCount == 0
    ensures forall c | c in news :: news[c] != n
  {
    forall c | c in news ensures news[c] != n {
      assert c in CellsOf(news, news[c]);
    }
  }

  lemma TryIsConsistent(b: Buckets, s: State, loose: set<Id>, n: Id, c: Cell)
    requires Consistent(b, s, loose) && n in loose && c !in s.tried
    requires n in s.info && c == TriedCell(b, s.info[n].service) && s.info[n].lastSuccess != 0
    ensures Consistent(b, Try(s, n, c), loose - {n})
  {
    hide RandomOk, AddrOk, TriedOk, NewOk, CountsOk;
    var i := s.info[n].(inTried := true);
    NoRefsNoCells(b, s.info, s.news, n);
    TriedAdded(b, s.info, s.tried, n, c);
    RandomKept(s.info, s.random, n, i);
    AddrKept(s.info, s.addr, n, i);
    NewKept(b, s.info, s.news, n, i);
    CountsKept(s.info, s.nTried, s.nNew, n, i);
  }
}
