/**
 What the operations of the address manager do to what it knows: which addresses are entered, with which
 stamps and cells, whom they displace and what stays as it was. Stated on the entries without their places in
 the random order, which the other indexes determine.
 */
module AddrEffects {
  import opened Options
  import opened AddrTables
  import opened AddrOps

  function Entries(s: State): map<Id, AddrInfo> {
    map n | n in s.info :: s.info[n].(randomPos := 0)
  }

  // The entries once a cell of the new table is taken from its holder, who goes with the last one.
  function Without(e: map<Id, AddrInfo>, news: map<Cell, Id>, c: Cell): map<Id, AddrInfo> {
    if c !in news || news[c] !in e then e
    else
      var h := news[c];
      if e[h].refCount == 1 then e - {h} else e[h := e[h].(refCount := e[h].refCount - 1)]
  }

  lemma WithoutPut(e: map<Id, AddrInfo>, news: map<Cell, Id>, c: Cell, n: Id, i: AddrInfo)
    requires !Holds(news, c, n)
    ensures Without(e[n := i], news, c) == Without(e, news, c)[n := i]
  {
    if c in news && news[c] in e { assert e[n := i] - {news[c]} == (e - {news[c]})[n := i]; }
  }

  lemma PutTwice<K, V>(m: map<K, V>, k: K, u: V, v: V)
    ensures m[k := u][k := v] == m[k := v]
  {
  }

  // Not tried in the last minute, and from the future, or not seen for thirty days, or tried three times in
  // vain, or failing ten times since a success more than a week ago.
  predicate Hopeless(i: AddrInfo, now: int) {
    && (i.lastTry == 0 || now - i.lastTry > 60)
    && (|| i.time - now > 600 || i.time == 0 || now - i.time > 2_592_000
        || (i.lastSuccess == 0 && i.attempts > 2) || (now - i.lastSuccess > 604_800 && i.attempts > 9))
  }

  lemma TerribleIff(i: AddrInfo, now: int)
    ensures Terrible(i, now) <==> Hopeless(i, now)
  {
  }

  /* ----- Clearing and filling a cell ----- */

  lemma SameEntries(s: State, s': State)
    requires SameButPositions(s.info, s'.info)
    ensures Entries(s') == Entries(s)
  {
    forall n | n in s.info ensures Entries(s')[n] == Entries(s)[n] {
      assert s'.info[n] == s.info[n].(randomPos := s'.info[n].randomPos);
    }
  }

  lemma DeletedEntries(b: Buckets, s: State, loose: set<Id>, n: Id)
    requires Consistent(b, s, loose) && n in loose
    ensures Entries(Delete(s, n)) == Entries(s) - {n} && Delete(s, n).addr == s.addr - {s.info[n].service.net}
  {
    hide Consistent;
    DeleteIsConsistent(b, s, loose, n);
    assert n in s.info && s.random != [] by { LooseIsListed(b, s, loose, n); }
    SameEntries(s.(info := s.info - {n}), Delete(s, n));
    assert Entries(s.(info := s.info - {n})) == Entries(s) - {n};
  }

  lemma LooseIsListed(b: Buckets, s: State, loose: set<Id>, n: Id)
    requires Consistent(b, s, loose) && n in loose
    ensures n in s.info && s.random != [] && 0 <= s.info[n].randomPos < |s.random|
  {
    HasPosition(s.info, s.random, n);
  }

  lemma ClearedEntries(b: Buckets, s: State, loose: set<Id>, c: Cell)
    requires Consistent(b, s, loose)
    ensures Entries(ClearNew(s, c)) == Without(Entries(s), s.news, c)
  {
    hide Consistent;
    if c in s.news {
      DropRefIsConsistent(b, s, loose, c);
      var h := s.news[c];
      if s.info[h].refCount == 1 {
        DeletedEntries(b, DropRef(s, c), loose + {h}, h);
        assert Entries(DropRef(s, c)) - {h} == Entries(s) - {h};
      } else {
        assert Entries(DropRef(s, c)) == Without(Entries(s), s.news, c);
      }
    }
  }

  lemma PutEntry(s: State, n: Id, i: AddrInfo)
    ensures Entries(s.(info := s.info[n := i])) == Entries(s)[n := i.(randomPos := 0)]
  {
  }

  lemma AttachedEntries(b: Buckets, s: State, loose: set<Id>, n: Id, c: Cell)
    requires Consistent(b, s, loose) && n in s.info && !Holds(s.news, c, n)
    ensures var s', i := Attach(ClearNew(s, c), n, c), s.info[n].(refCount := s.info[n].refCount + 1, randomPos := 0);
            && Entries(s') == Without(Entries(s), s.news, c)[n := i] && s'.news == s.news[c := n] && s'.tried == s.tried
            && s'.lastGood == s.lastGood && s'.collisions == s.collisions
  {
    hide Consistent, ClearNew, Entries, Without;
    ClearNewIsConsistent(b, s, loose, c);
    ClearNewFrame(s, c);
    ClearedEntries(b, s, loose, c);
    var s1 := ClearNew(s, c);
    assert n in s1.info && s1.info[n] == s.info[n].(randomPos := s1.info[n].randomPos);
    assert s1.news[c := n] == s.news[c := n];
    PutEntry(s1.(news := s1.news[c := n]), n, s1.info[n].(refCount := s1.info[n].refCount + 1));
    EntriesOnly(s1.(news := s1.news[c := n]), s1);
  }

  lemma EntriesOnly(s: State, s': State)
    requires s.info == s'.info
    ensures Entries(s) == Entries(s')
  {
  }

  // A cell of the new table is free for an entry, or its holder gives way.
  predicate HasRoom(s: State, n: Id, c: Cell, now: int)
    requires n in s.info
  {
    || c !in s.news || s.news[c] !in s.info
    || Hopeless(s.info[s.news[c]], now) || (s.info[s.news[c]].refCount > 1 && s.info[n].refCount == 0)
  }

  lemma PlaceEffect(b: Buckets, s: State, loose: set<Id>, n: Id, source: NetAddr, now: int)
    requires BucketsOk(b) && Consistent(b, s, loose) && n in s.info
    requires loose == if s.info[n].refCount == 0 then {n} else {}
    ensures var s', i := Place(b, s, n, source, now), s.info[n];
            var c := NewCell(b, i.service, b.introduced(i.service, source));
            && s'.tried == s.tried && s'.lastGood == s.lastGood && s'.collisions == s.collisions
            && if Holds(s.news, c, n) then s' == s
               else if HasRoom(s, n, c, now) then
                 s'.news == s.news[c := n] &&
                 Entries(s') == Without(Entries(s), s.news, c)[n := i.(refCount := i.refCount + 1, randomPos := 0)]
               else if i.refCount == 0 then
                 s'.news == s.news && Entries(s') == Entries(s) - {n} && s'.addr == s.addr - {i.service.net}
               else s' == s
  {
    hide Consistent, Attach, ClearNew, Delete, Entries, Without, Terrible, Hopeless;
    var c := NewCell(b, s.info[n].service, b.introduced(s.info[n].service, source));
    if c in s.news && s.news[c] in s.info { TerribleIff(s.info[s.news[c]], now); }
    if !Holds(s.news, c, n) {
      AttachedEntries(b, s, loose, n, c);
      if s.info[n].refCount == 0 {
        DeletedEntries(b, s, loose, n);
        DeleteFrame(s, n);
      }
    }
  }

  /* ----- Add ----- */

  // An address that is new is entered, with one reference, in the cell its source leads to if that cell is free, or
  // its holder is hopeless, or the holder has another; else nothing is learned.
  lemma AddUnknownIff(b: Buckets, s: State, a: Announced, source: NetAddr, timePenalty: int, now: int, lucky: bool)
    requires BucketsOk(b) && Ok(b, s) && b.routable(a.service.net) && a.service.net !in s.addr
    ensures var (s', isNew) := Add(b, s, a, source, timePenalty, now, lucky);
            var bucket := b.introduced(a.service, source);
            var c := Cell(bucket, b.position(a.service, true, bucket));
            var room := || c !in s.news
                        || (s.news[c] in s.info &&
                            (Hopeless(s.info[s.news[c]], now) || s.info[s.news[c]].refCount > 1));
            var time := if a.service.net == source then a.time else a.time - timePenalty;
            var i := AddrInfo(a.service, if time < 0 then 0 else time, a.services, source, 0, 0, 0, 0, 1, false, 0);
            && isNew && (a.service.net in s'.addr <==> room)
            && (room ==> s'.addr[a.service.net] == s.idCount)
            && Entries(s') == (if room then Without(Entries(s), s.news, c)[s.idCount := i] else Entries(s))
            && s'.news == (if room then s.news[c := s.idCount] else s.news)
            && s'.tried == s.tried && s'.lastGood == s.lastGood && s'.collisions == s.collisions
  {
    hide Ok, Consistent, BucketsOk, Entries, Without, Place, Hopeless, Create;
    var n, penalty := s.idCount, if a.service.net == source then 0 else timePenalty;
    var i := NewInfo(a, source, penalty);
    var s1, c := Create(s, i), NewCell(b, a.service, b.introduced(a.service, source));
    AddIsOk(b, s, a, source, timePenalty, now, lucky);
    OkIsConsistent(b, s);
    NotFound(b, s, a.service.net);
    CreateIsConsistent(b, s, i);
    CreatedIsFresh(b, s, i, c);
    CreatedEntries(s, i, c);
    PlaceEffect(b, s1, {n}, n, source, now);
    var s' := Place(b, s1, n, source, now);
    if HasRoom(s1, n, c, now) {
      EntryHas(s', n);
      KnownByEntry(b, s', n);
    } else {
      assert Entries(s)[n := i] - {n} == Entries(s) by { EntryHas(s, n); }
      UnknownByEntries(b, s, s', a.service.net);
    }
  }

  // What is announced of a known address: a later time, moved back by the penalty unless the address speaks for itself,
  // replaces one that is older by more than an hour, or by more than a day if the news is as old; services add up.
  function Renewed(i: AddrInfo, a: Announced, source: NetAddr, timePenalty: int, now: int): AddrInfo {
    var dated := if a.service.net == source then a.time else a.time - timePenalty;
    var slack := if now - a.time < 86_400 then 3_600 else 86_400;
    i.(services := i.services + a.services, randomPos := 0,
       time := if a.time == 0 || (i.time != 0 && dated - i.time <= slack) then i.time
               else if dated < 0 then 0 else dated)
  }

  lemma RefreshIs(i: AddrInfo, a: Announced, source: NetAddr, timePenalty: int, now: int)
    ensures var penalty := if a.service.net == source then 0 else timePenalty;
            Refresh(i, a, penalty, now) == Renewed(i, a, source, timePenalty, now).(randomPos := i.randomPos)
    ensures Renewed(i, a, source, timePenalty, now).randomPos == 0
  {
  }

  // A known address gains the cell its source leads to when the news is later than its time, it is neither tried nor in
  // eight cells, the draw goes its way and the cell is free or held by a hopeless other.
  lemma AddKnownIff(b: Buckets, s: State, n: Id, a: Announced, source: NetAddr, timePenalty: int, now: int, lucky: bool)
    requires BucketsOk(b) && Ok(b, s) && b.routable(a.service.net)
    requires a.service.net in s.addr && s.addr[a.service.net] == n && n in s.info
    ensures var (s', isNew), i := Add(b, s, a, source, timePenalty, now, lucky), s.info[n];
            var bucket := b.introduced(i.service, source);
            var c := Cell(bucket, b.position(i.service, true, bucket));
            var j := Renewed(i, a, source, timePenalty, now);
            var gains := && a.time != 0 && (j.time == 0 || j.time < a.time) && !i.inTried && i.refCount < 8 && lucky
                         && (c in s.news ==>
                               s.news[c] != n && s.news[c] in s.info && Hopeless(s.info[s.news[c]], now));
            && !isNew
            && Entries(s') == (if gains then Without(Entries(s), s.news, c)[n := j.(refCount := i.refCount + 1)]
                               else Entries(s)[n := j])
            && s'.news == (if gains then s.news[c := n] else s.news)
            && s'.tried == s.tried && s'.lastGood == s.lastGood && s'.collisions == s.collisions
  {
    hide Ok, Consistent, BucketsOk, Entries, Without, Place, Hopeless, Refresh, Renewed;
    NotFound(b, s, a.service.net);
    RefreshIs(s.info[n], a, source, timePenalty, now);
    RenewedKeeps(b, s, n, a, source, timePenalty, now);
    var penalty := if a.service.net == source then 0 else timePenalty;
    var i := Refresh(s.info[n], a, penalty, now);
    var s1, c := Touch(s, n, i), NewCell(b, i.service, b.introduced(i.service, source));
    OkIsConsistent(b, s);
    TouchIsConsistent(b, s, {}, n, i);
    PutEntry(s, n, i);
    CreatedIsFresh(b, s, i, c);
    var j := i.(randomPos := 0);
    if !Holds(s.news, c, n) { WithoutPut(Entries(s), s.news, c, n, j); }
    PutTwice(Without(Entries(s), s.news, c), n, j, j.(refCount := i.refCount + 1));
    if !i.inTried && i.refCount < 8 { PlaceEffect(b, s1, {}, n, source, now); }
  }

  lemma RenewedKeeps(b: Buckets, s: State, n: Id, a: Announced, source: NetAddr, timePenalty: int, now: int)
    requires Ok(b, s) && n in s.info
    ensures var i := s.info[n]; var j := Renewed(i, a, source, timePenalty, now);
            SamePlace(j.(randomPos := i.randomPos), i) && StampOk(j)
    ensures !s.info[n].inTried ==> 1 <= s.info[n].refCount <= 8
    ensures s.info[n].refCount <= 8
  {
    hide RandomOk, AddrOk, TriedOk, CountsOk;
  }

  lemma NotFound(b: Buckets, s: State, net: NetAddr)
    requires Ok(b, s)
    ensures AddrOps.Lookup(s, net) == if net in s.addr then Some(s.addr[net]) else None
    ensures net in s.addr ==> s.addr[net] in s.info && s.info[s.addr[net]].service.net == net
  {
    hide RandomOk, TriedOk, NewOk, RefsOk, CountsOk, StampsOk;
  }

  lemma EntryHas(s: State, n: Id)
    ensures n in Entries(s) <==> n in s.info
    ensures n in s.info ==> Entries(s)[n] == s.info[n].(randomPos := 0)
  {
  }

  // A new entry has an id that no cell holds.
  lemma CreatedIsFresh(b: Buckets, s: State, i: AddrInfo, c: Cell)
    requires Consistent(b, s, {})
    ensures s.idCount !in s.info && !Holds(s.news, c, s.idCount) && (c in s.news ==> s.news[c] in s.info)
  {
    hide RandomOk, AddrOk, TriedOk, CountsOk, StampsOk;
  }

  lemma CreatedEntries(s: State, i: AddrInfo, c: Cell)
    requires s.idCount !in s.info && !Holds(s.news, c, s.idCount)
    ensures var s1, n := Create(s, i), s.idCount; var j := i.(refCount := 0, inTried := false, randomPos := 0);
            && s1.info == s.info[n := j.(randomPos := |s.random|)]
            && s1.news == s.news && s1.tried == s.tried && s1.lastGood == s.lastGood && s1.collisions == s.collisions
            && Entries(s1) == Entries(s)[n := j]
            && Without(Entries(s1), s1.news, c) == Without(Entries(s), s.news, c)[n := j]
  {
    var s1, n := Create(s, i), s.idCount;
    PutEntry(s, n, s1.info[n]);
    EntriesOnly(s.(info := s1.info), s1);
    WithoutPut(Entries(s), s.news, c, n, i.(refCount := 0, inTried := false, randomPos := 0));
  }

  lemma KnownByEntry(b: Buckets, s: State, n: Id)
    requires Ok(b, s) && n in s.info
    ensures s.info[n].service.net in s.addr && s.addr[s.info[n].service.net] == n
  {
    hide RandomOk, TriedOk, NewOk, RefsOk, CountsOk, StampsOk;
  }

  lemma UnknownByEntries(b: Buckets, s: State, s': State, net: NetAddr)
    requires Ok(b, s) && Ok(b, s') && Entries(s') == Entries(s) && net !in s.addr
    ensures net !in s'.addr
  {
    hide Ok, Entries;
    NotFound(b, s', net);
    if net in s'.addr {
      var n := s'.addr[net];
      EntryHas(s', n);
      EntryHas(s, n);
      KnownByEntry(b, s, n);
    }
  }

  /* ----- Good ----- */

  // The cells of the others.
  function Others(news: map<Cell, Id>, n: Id): map<Cell, Id> {
    map c | c in news && news[c] != n :: news[c]
  }

  // The entry, which is now i, is in the tried table and has given up its cells of the new one. Whoever held its cell
  // is back in the new table, in the cell its source leads to, and has displaced the holder of that.
  ghost predicate IsTriedNow(b: Buckets, s: State, s': State, n: Id, i: AddrInfo) {
    var bucket := b.tried(i.service);
    var c := Cell(bucket, b.position(i.service, false, bucket));
    && i.inTried && i.refCount == 0 && s'.tried == s.tried[c := n]
    && if c !in s.tried || s.tried[c] !in s.info then
         c !in s.tried && Entries(s') == Entries(s)[n := i] && s'.news == Others(s.news, n)
       else
         var m := s.tried[c];
         var j := s.info[m].(refCount := 1, inTried := false, randomPos := 0);
         var home := b.introduced(j.service, j.source);
         var d := Cell(home, b.position(j.service, true, home));
         && s'.news == Others(s.news, n)[d := m]
         && Entries(s') == Without(Entries(s), Others(s.news, n), d)[m := j][n := i]
  }

  lemma MakeTriedEffect(b: Buckets, s: State, n: Id)
    requires BucketsOk(b) && Consistent(b, s, {})
    requires n in s.info && !s.info[n].inTried && s.info[n].lastSuccess != 0
    ensures var s' := MakeTried(b, s, n);
            && IsTriedNow(b, s, s', n, s.info[n].(refCount := 0, inTried := true, randomPos := 0))
            && s'.lastGood == s.lastGood && s'.collisions == s.collisions
  {
    hide Consistent, Detach, Evict, Entries, Without, Others;
    DetachIsConsistent(b, s, n);
    DetachedEntries(s, n);
    var s1, c := Detach(s, n), TriedCell(b, s.info[n].service);
    var i0, i := s1.info[n].(randomPos := 0), s.info[n].(refCount := 0, inTried := true, randomPos := 0);
    if c in s.tried {
      HolderHasNoCell(b, s1, n, c);
      EvictedEntries(b, s1, n, c);
      EvictIsConsistent(b, s1, n, c);
      var s2, m := Evict(b, s1, c), s.tried[c];
      assert s2.tried[c := n] == s.tried[c := n];
      PutEntry(s2, n, s2.info[n].(inTried := true));
      EntriesOnly(MakeTried(b, s, n), s2.(info := s2.info[n := s2.info[n].(inTried := true)]));
      var d, j := IntroducedCell(b, s.info[m]), s.info[m].(refCount := 1, inTried := false, randomPos := 0);
      assert !Holds(Others(s.news, n), d, n) by { OthersHold(s.news, n, d); }
      WithoutPut(Entries(s), Others(s.news, n), d, n, i0);
      PutAround(Without(Entries(s), Others(s.news, n), d), n, m, i0, j, i);
    } else {
      assert Evict(b, s1, c) == s1 by { NothingToEvict(b, s1, c); }
      PutEntry(s1, n, s1.info[n].(inTried := true));
      EntriesOnly(MakeTried(b, s, n), s1.(info := s1.info[n := s1.info[n].(inTried := true)]));
      PutTwice(Entries(s), n, i0, i);
    }
  }

  lemma OthersHold(news: map<Cell, Id>, n: Id, c: Cell)
    ensures !Holds(Others(news, n), c, n)
  {
  }

  lemma PutAround<K, V>(e: map<K, V>, k: K, l: K, u: V, v: V, w: V)
    requires k != l
    ensures e[k := u][l := v][k := w] == e[l := v][k := w]
  {
  }

  lemma NothingToEvict(b: Buckets, s: State, c: Cell)
    requires c !in s.tried
    ensures Evict(b, s, c) == s
  {
  }

  lemma DetachedEntries(s: State, n: Id)
    requires n in s.info
    ensures var s', i := Detach(s, n), s.info[n].(refCount := 0);
            && Entries(s') == Entries(s)[n := i.(randomPos := 0)] && s'.news == Others(s.news, n)
            && s'.info == s.info[n := i] && s'.tried == s.tried
            && s'.lastGood == s.lastGood && s'.collisions == s.collisions
  {
    PutEntry(s, n, s.info[n].(refCount := 0));
    EntriesOnly(Detach(s, n), s.(info := s.info[n := s.info[n].(refCount := 0)]));
    assert Detach(s, n).news == Others(s.news, n);
  }

  lemma EvictedEntries(b: Buckets, s: State, n: Id, c: Cell)
    requires BucketsOk(b) && Consistent(b, s, {n}) && c in s.tried && s.tried[c] in s.info
    ensures var s', m := Evict(b, s, c), s.tried[c];
            var j := s.info[m].(refCount := 1, inTried := false, randomPos := 0);
            var d := IntroducedCell(b, j);
            && s'.tried == s.tried - {c} && s'.news == s.news[d := m]
            && s'.lastGood == s.lastGood && s'.collisions == s.collisions
            && Entries(s') == Without(Entries(s), s.news, d)[m := j]
  {
    hide Consistent, Attach, ClearNew, Without, Entries;
    var m := s.tried[c];
    UntryIsConsistent(b, s, {n}, c);
    HolderHasNoCell(b, s, n, c);
    var s2, d := Untry(s, c), IntroducedCell(b, s.info[m]);
    PutEntry(s, m, s2.info[m]);
    EntriesOnly(s2, s.(info := s2.info));
    AttachedEntries(b, s2, {n} + {m}, m, d);
    WithoutPut(Entries(s), s.news, d, m, s2.info[m].(randomPos := 0));
    PutTwice(Without(Entries(s), s.news, d), m, s2.info[m].(randomPos := 0),
             s.info[m].(refCount := 1, inTried := false, randomPos := 0));
  }

  lemma HolderHasNoCell(b: Buckets, s: State, n: Id, c: Cell)
    requires Consistent(b, s, {n}) && c in s.tried
    ensures s.tried[c] in s.info && s.info[s.tried[c]].refCount == 0 && s.info[s.tried[c]].inTried && n in s.info
    ensures s.tried[c] != n && forall d | d in s.news :: s.news[d] != s.tried[c]
  {
    hide RandomOk, AddrOk, CountsOk, StampsOk;
    OwnerIsTried(b, s.info, s.tried, s.news, c);
  }

  // After a success an entry has its stamps set, no failures, and, unless it is tried already, its place in the tried
  // table.
  ghost predicate IsGoodNow(b: Buckets, s: State, s': State, n: Id, time: int)
    requires n in s.info
  {
    var i := s.info[n].(lastSuccess := time, lastTry := time, attempts := 0, randomPos := 0);
    && s'.lastGood == time
    && if i.inTried then Entries(s') == Entries(s)[n := i] && s'.news == s.news && s'.tried == s.tried
       else IsTriedNow(b, s, s', n, i.(refCount := 0, inTried := true))
  }

  lemma GoodUnknownIs(b: Buckets, s: State, a: Service, testBeforeEvict: bool, time: int)
    requires Ok(b, s) && forall n | n in s.info :: s.info[n].service != a
    ensures Good(b, s, a, testBeforeEvict, time) == s.(lastGood := time)
  {
    hide Ok, MakeTried, HasNewCell;
  }

  // With the test before evicting, an entry whose cell is taken waits, unless ten wait already.
  lemma GoodEffect(b: Buckets, s: State, n: Id, testBeforeEvict: bool, time: int)
    requires BucketsOk(b) && Ok(b, s) && time > 0 && n in s.info
    ensures var a := s.info[n].service; var s' := Good(b, s, a, testBeforeEvict, time);
            var c := Cell(b.tried(a), b.position(a, false, b.tried(a)));
            if testBeforeEvict && c in s.tried && !s.info[n].inTried then
              && s'.lastGood == time && s'.news == s.news && s'.tried == s.tried
              && Entries(s') == Entries(s)[n := s.info[n].(lastSuccess := time, lastTry := time, attempts := 0,
                                                          randomPos := 0)]
              && s'.collisions == if |s.collisions| < 10 then s.collisions + {n} else s.collisions
            else IsGoodNow(b, s, s', n, time) && s'.collisions == s.collisions
  {
    hide Ok, Consistent, MakeTried, HasNewCell, Entries, Without, Others;
    var i := s.info[n].(lastSuccess := time, lastTry := time, attempts := 0);
    FoundByService(b, s, n);
    GoodStamps(b, s, n, time);
    var s1 := Touch(s.(lastGood := time), n, i);
    PutEntry(s.(lastGood := time), n, i);
    EntriesOnly(s.(lastGood := time), s);
    OkIsConsistent(b, s1);
    EntriesOnly(s1, s1.(collisions := s1.collisions + {n}));
    if !i.inTried {
      NewEntryHasCell(b, s1, n);
      UntriedHasNoCell(b, s, n);
      MakeTriedEffect(b, s1, n);
      StampedMove(b, s, s1, MakeTried(b, s1, n), n, i);
    }
  }

  lemma FoundByService(b: Buckets, s: State, n: Id)
    requires Ok(b, s) && n in s.info
    ensures LookupService(s, s.info[n].service) == Some(n)
  {
    hide RandomOk, TriedOk, NewOk, RefsOk, CountsOk, StampsOk;
  }

  // The stamps of the entry that moves do not matter.
  lemma StampedMove(b: Buckets, s: State, s1: State, s': State, n: Id, i: AddrInfo)
    requires n in s.info && s1.info == s.info[n := i] && s1.news == s.news && s1.tried == s.tried
    requires Entries(s1) == Entries(s)[n := i.(randomPos := 0)]
    requires IsTriedNow(b, s1, s', n, i.(refCount := 0, inTried := true, randomPos := 0))
    requires forall c | c in s.tried :: s.tried[c] != n
    ensures IsTriedNow(b, s, s', n, i.(refCount := 0, inTried := true, randomPos := 0))
  {
    hide Entries, Without, Others;
    var i0, i' := i.(randomPos := 0), i.(refCount := 0, inTried := true, randomPos := 0);
    var c, e, rest := TriedCell(b, i.service), Entries(s), Others(s.news, n);
    if c in s.tried && s.tried[c] in s.info {
      var m := s.tried[c];
      var d, j := IntroducedCell(b, s.info[m]), s.info[m].(refCount := 1, inTried := false, randomPos := 0);
      OthersHold(s.news, n, d);
      WithoutPut(e, rest, d, n, i0);
      PutAround(Without(e, rest, d), n, m, i0, j, i');
    } else {
      PutTwice(e, n, i0, i');
    }
  }

  lemma UntriedHasNoCell(b: Buckets, s: State, n: Id)
    requires Ok(b, s) && n in s.info && !s.info[n].inTried
    ensures forall c | c in s.tried :: s.tried[c] != n
  {
    hide RandomOk, AddrOk, NewOk, RefsOk, CountsOk, StampsOk;
  }

  lemma IgnoresCollisions(b: Buckets, s: State, s': State, n: Id, time: int, collisions: set<Id>)
    requires n in s.info && IsGoodNow(b, s, s', n, time)
    ensures IsGoodNow(b, s, s'.(collisions := collisions), n, time)
  {
    EntriesOnly(s', s'.(collisions := collisions));
    hide Entries, Without, Others;
  }

  /* ----- Collisions ----- */

  // A holder that succeeded in the last four hours keeps its cell. Else the waiting entry takes it once the holder was
  // tried in those hours, and has had its minute, or, if it was not, once forty minutes have passed since the waiting
  // entry's own success.
  lemma ResolveOneIff(b: Buckets, s: State, n: Id, now: int)
    requires BucketsOk(b) && Ok(b, s) && now > 0
    ensures var s' := ResolveOne(b, s, n, now);
            if n !in s.info || !b.valid(s.info[n].service.net) then s' == s.(collisions := s.collisions - {n})
            else
              var a := s.info[n].service;
              var c := Cell(b.tried(a), b.position(a, false, b.tried(a)));
              if c !in s.tried || s.tried[c] !in s.info then
                IsGoodNow(b, s, s', n, now) && s'.collisions == s.collisions - {n}
              else
                var j := s.info[s.tried[c]];
                var mayEvict := if now - j.lastTry < 14_400 then now - j.lastTry > 60
                                else now - s.info[n].lastSuccess > 2_400;
                if now - j.lastSuccess < 14_400 then s' == s.(collisions := s.collisions - {n})
                else if mayEvict then IsGoodNow(b, s, s', n, now) && s'.collisions == s.collisions - {n}
                else s' == s
  {
    hide Ok, Good, IsGoodNow;
    if n in s.info {
      GoodEffect(b, s, n, false, now);
      IgnoresCollisions(b, s, Good(b, s, s.info[n].service, false, now), n, now, s.collisions - {n});
    }
  }

  /* ----- Stamps ----- */

  // The three operations that only stamp: an address and port nobody has changes nothing, and one that is known changes
  // nothing but its own entry, and of that only what is named.
  lemma StampsUnknown(b: Buckets, s: State, a: Service, countFailure: bool, time: int, services: set<nat>)
    requires Ok(b, s) && forall n | n in s.info :: s.info[n].service != a
    ensures Attempt(s, a, countFailure, time) == s && Connected(s, a, time) == s && SetServices(s, a, services) == s
  {
    hide Ok;
  }

  lemma StampsKnown(b: Buckets, s: State, n: Id, countFailure: bool, time: int, services: set<nat>)
    requires Ok(b, s) && n in s.info
    ensures var a, i := s.info[n].service, s.info[n];
            && Attempt(s, a, countFailure, time) == s.(info := s.info[n := Tried(i, s.lastGood, countFailure, time)])
            && Connected(s, a, time)
            == s.(info := s.info[n := i.(time := if time > i.time + 1_200 then time else i.time)])
            && SetServices(s, a, services) == s.(info := s.info[n := i.(services := services)])
  {
    hide Ok;
    FoundByService(b, s, n);
    assert s.info[n := s.info[n].(time := s.info[n].time)] == s.info;
  }

  // An entry that is tried; a failure counts if none was counted since the last success of any.
  function Tried(i: AddrInfo, lastGood: int, countFailure: bool, time: int): AddrInfo {
    if countFailure && i.lastCountAttempt < lastGood then
      i.(lastTry := time, lastCountAttempt := time, attempts := i.attempts + 1)
    else i.(lastTry := time)
  }

  // Calls of Attempt one after the other.
  function Attempts(s: State, a: Service, calls: seq<(bool, int)>): State {
    if calls == [] then s
    else Attempt(Attempts(s, a, calls[..|calls| - 1]), a, calls[|calls| - 1].0, calls[|calls| - 1].1)
  }

  // However often an entry is tried, at most one failure is counted until something succeeds again, and it is counted
  // if any of the tries counts.
  lemma {:induction false} OneFailurePerGood(b: Buckets, s: State, n: Id, calls: seq<(bool, int)>)
    requires Ok(b, s) && n in s.info
    requires forall k | 0 <= k < |calls| :: calls[k].1 > 0 && calls[k].1 >= s.lastGood
    ensures var s', i := Attempts(s, s.info[n].service, calls), s.info[n];
            var counts := i.lastCountAttempt < s.lastGood && exists k | 0 <= k < |calls| :: calls[k].0;
            && Ok(b, s') && s'.lastGood == s.lastGood && s'.info.Keys == s.info.Keys
            && s'.info[n].service == i.service
            && s'.info[n].attempts == i.attempts + (if counts then 1 else 0)
            && (counts ==> s'.info[n].lastCountAttempt >= s.lastGood)
            && (!counts ==> s'.info[n].lastCountAttempt == i.lastCountAttempt)
  {
    hide Ok, Attempt, Evolves;
    if calls != [] {
      var k, a := |calls| - 1, s.info[n].service;
      OneFailurePerGood(b, s, n, calls[..k]);
      var s1 := Attempts(s, a, calls[..k]);
      StampsKnown(b, s1, n, calls[k].0, calls[k].1, {});
      AttemptIsOk(b, s1, a, calls[k].0, calls[k].1);
      OneMoreCall(calls);
    }
  }

  lemma OneMoreCall(calls: seq<(bool, int)>)
    requires calls != []
    ensures var k := |calls| - 1;
            (exists j | 0 <= j < |calls| :: calls[j].0) <==>
            (calls[k].0 || exists j | 0 <= j < |calls[..k]| :: calls[..k][j].0)
  {
    var k := |calls| - 1;
    if j :| 0 <= j < |calls| && calls[j].0 { if j < k { assert calls[..k][j].0; } }
  }

  /* ----- GetAddr ----- */

  // What is reported of some entries: exactly those that are not hopeless.
  lemma {:induction false} KeptIff(info: map<Id, AddrInfo>, ids: seq<Id>, now: int, a: Service)
    ensures a in Kept(info, ids, now)
       <==> exists k | 0 <= k < |ids| :: ids[k] in info && !Hopeless(info[ids[k]], now) && info[ids[k]].service == a
  {
    hide Terrible, Hopeless;
    if ids != [] {
      var k := |ids| - 1;
      KeptIff(info, ids[..k], now, a);
      if ids[k] in info { TerribleIff(info[ids[k]], now); }
      assert forall j | 0 <= j < k :: ids[..k][j] == ids[j];
    }
  }

  // No address is reported twice.
  lemma {:induction false} KeptIsDistinct(b: Buckets, s: State, ids: seq<Id>, now: int, p: nat, q: nat)
    requires Ok(b, s) && forall i, j | 0 <= i < j < |ids| :: ids[i] != ids[j]
    requires p < q < |Kept(s.info, ids, now)|
    ensures Kept(s.info, ids, now)[p] != Kept(s.info, ids, now)[q]
  {
    hide Ok, Terrible, Hopeless;
    if ids != [] {
      var k := |ids| - 1;
      var init := Kept(s.info, ids[..k], now);
      if q < |init| {
        KeptIsDistinct(b, s, ids[..k], now, p, q);
      } else {
        var a := s.info[ids[k]].service;
        FoundByService(b, s, ids[k]);
        if init[p] == a {
          KeptIff(s.info, ids[..k], now, a);
          var j :| 0 <= j < k && ids[..k][j] in s.info && s.info[ids[..k][j]].service == a;
          FoundByService(b, s, ids[j]);
        }
      }
    }
  }
}
