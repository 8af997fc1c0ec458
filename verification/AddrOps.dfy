/**
 The operations of the address manager on its value model. Every one of them keeps the
 consistency conditions, so they hold after every run (RunIsOk).
 */
module AddrOps {
  import opened Options
  import opened AddrTables

  function IntroducedCell(b: Buckets, i: AddrInfo): Cell {
    NewCell(b, i.service, b.introduced(i.service, i.source))
  }

  // Sends the holder of a tried cell back to the new table.
  function Evict(b: Buckets, s: State, c: Cell): State {
    if c !in s.tried || s.tried[c] !in s.info then s
    else
      var m := s.tried[c];
      var d := IntroducedCell(b, s.info[m]);
      Attach(ClearNew(Untry(s, c), d), m, d)
  }

  lemma EvictIsConsistent(b: Buckets, s: State, n: Id, c: Cell)
    requires BucketsOk(b) && Consistent(b, s, {n}) && c in s.tried
    ensures Consistent(b, Evict(b, s, c), {n})
    ensures Evict(b, s, c).tried == s.tried - {c}
    ensures Evict(b, s, c).info.Keys <= s.info.Keys && n in Evict(b, s, c).info
    ensures Evict(b, s, c).info[n] == s.info[n].(randomPos := Evict(b, s, c).info[n].randomPos)
    ensures forall k | k in Evict(b, s, c).info :: Evict(b, s, c).info[k].service == s.info[k].service
    ensures Evict(b, s, c)
            == s.(info := Evict(b, s, c).info, addr := Evict(b, s, c).addr, random := Evict(b, s, c).random,
                                 tried := Evict(b, s, c).tried, news := Evict(b, s, c).news,
                                 nTried := Evict(b, s, c).nTried, nNew := Evict(b, s, c).nNew)
  {
    hide RandomOk, AddrOk, TriedOk, NewOk, CountsOk, StampsOk;
    UntryIsConsistent(b, s, {n}, c);
    var s2, m := Untry(s, c), s.tried[c];
    assert {n} + {m} == {n, m} && {n, m} - {m} == {n};
    var d := IntroducedCell(b, s2.info[m]);
    ClearNewIsConsistent(b, s2, {n, m}, d);
    ClearNewFrame(s2, d);
    AttachIsConsistent(b, ClearNew(s2, d), {n, m}, m, d);
  }

  // Moves an entry of the new table to the tried table; whoever holds the cell goes back to the new table.
  function MakeTried(b: Buckets, s: State, n: Id): State {
    if n !in s.info then s
    else
      var c := TriedCell(b, s.info[n].service);
      Try(Evict(b, Detach(s, n), c), n, c)
  }

  lemma MakeTriedIsConsistent(b: Buckets, s: State, n: Id)
    requires BucketsOk(b) && Consistent(b, s, {})
    requires n in s.info && !s.info[n].inTried && s.info[n].lastSuccess != 0
    ensures Consistent(b, MakeTried(b, s, n), {})
    ensures Evolves(s, MakeTried(b, s, n)) && MakeTried(b, s, n).collisions == s.collisions
    ensures n in MakeTried(b, s, n).info && MakeTried(b, s, n).info[n].inTried
  {
    hide RandomOk, AddrOk, TriedOk, NewOk, CountsOk, StampsOk;
    DetachIsConsistent(b, s, n);
    var s1, c := Detach(s, n), TriedCell(b, s.info[n].service);
    if c in s1.tried { EvictIsConsistent(b, s1, n, c); }
    var s2 := Evict(b, s1, c);
    TryIsConsistent(b, s2, {n}, n, c);
    assert {n} - {n} == {};
    MovedToTried(s, s2, n, c);
  }

  lemma MovedToTried(s: State, s2: State, n: Id, c: Cell)
    requires n in s.info && n in s2.info && s2.info.Keys <= s.info.Keys
    requires forall k | k in s2.info :: s2.info[k].service == s.info[k].service
    requires s2.tried == s.tried - {c} || s2.tried == s.tried
    requires s2.idCount == s.idCount
    ensures Evolves(s, Try(s2, n, c))
  {
  }

  /* ----- Public operations ----- */

  const MINUTE := 60
  const HOUR := 3600
  const DAY := 86400

  function Lookup(s: State, net: NetAddr): Option<Id> {
    if net in s.addr && s.addr[net] in s.info then Some(s.addr[net]) else None
  }

  // The entry of exactly this address and port.
  function LookupService(s: State, a: Service): Option<Id> {
    var found := Lookup(s, a.net);
    if found.Some? && s.info[found.value].service == a then found else None
  }

  predicate HasNewCell(b: Buckets, s: State, n: Id)
    requires n in s.info
  {
    exists bucket | 0 <= bucket < NEW_BUCKETS :: Holds(s.news, NewCell(b, s.info[n].service, bucket), n)
  }

  function Good(b: Buckets, s: State, a: Service, testBeforeEvict: bool, time: int): State {
    var s0, found := s.(lastGood := time), LookupService(s, a);
    if found.None? then s0
    else
      var n := found.value;
      var s1 := Touch(s0, n, s.info[n].(lastSuccess := time, lastTry := time, attempts := 0));
      if s1.info[n].inTried then s1
      else if !HasNewCell(b, s1, n) then s1
      else if testBeforeEvict && TriedCell(b, a) in s1.tried then
        if |s1.collisions| < MAX_COLLISIONS then s1.(collisions := s1.collisions + {n}) else s1
      else MakeTried(b, s1, n)
  }

  // The bail-out for an entry without a bucket is never taken.
  lemma NewEntryHasCell(b: Buckets, s: State, n: Id)
    requires Consistent(b, s, {}) && n in s.info && !s.info[n].inTried
    ensures HasNewCell(b, s, n)
  {
    assert CellsOf(s.news, n) != {};
    var c :| c in CellsOf(s.news, n);
    assert Holds(s.news, NewCell(b, s.info[n].service, c.bucket), n);
  }

  // What Good leaves of a known entry once its stamps are set.
  lemma GoodMoves(b: Buckets, s: State, n: Id)
    requires BucketsOk(b) && Ok(b, s) && n in s.info && !s.info[n].inTried && s.info[n].lastSuccess != 0
    ensures Ok(b, MakeTried(b, s, n)) && Evolves(s, MakeTried(b, s, n)) && MakeTried(b, s, n).collisions == s.collisions
    ensures n in MakeTried(b, s, n).info && MakeTried(b, s, n).info[n].inTried
  {
    hide Consistent, MakeTried;
    MakeTriedIsConsistent(b, s, n);
    EvolvesKeepsCollisions(b, s, MakeTried(b, s, n));
  }

  lemma GoodStamps(b: Buckets, s: State, n: Id, time: int)
    requires Ok(b, s) && n in s.info && time > 0
    ensures var s1 := Touch(s.(lastGood := time), n, s.info[n].(lastSuccess := time, lastTry := time, attempts := 0));
            Ok(b, s1) && Evolves(s, s1)
  {
    hide RandomOk, AddrOk, TriedOk, NewOk, CountsOk, StampsOk, RefsOk;
    TouchIsConsistent(b, s.(lastGood := time), {}, n, s.info[n].(lastSuccess := time, lastTry := time, attempts := 0));
  }

  lemma GoodWaits(b: Buckets, s: State, n: Id)
    requires Ok(b, s) && n in s.info && TriedCell(b, s.info[n].service) in s.tried && |s.collisions| < MAX_COLLISIONS
    ensures var s' := s.(collisions := s.collisions + {n}); Ok(b, s') && Evolves(s, s')
  {
    hide RandomOk, AddrOk, TriedOk, NewOk, CountsOk, StampsOk, RefsOk;
    if n in s.collisions { assert s.collisions + {n} == s.collisions; }
  }

  lemma GoodIsOk(b: Buckets, s: State, a: Service, testBeforeEvict: bool, time: int)
    requires BucketsOk(b) && Ok(b, s) && time > 0
    ensures Ok(b, Good(b, s, a, testBeforeEvict, time)) && Evolves(s, Good(b, s, a, testBeforeEvict, time))
    ensures !testBeforeEvict ==> Good(b, s, a, testBeforeEvict, time).collisions == s.collisions
    ensures LookupService(s, a).Some? && (!testBeforeEvict || TriedCell(b, a) !in s.tried) ==>
              var n, s' := LookupService(s, a).value, Good(b, s, a, testBeforeEvict, time);
              n in s'.info && s'.info[n].inTried
  {
    hide Ok, Evolves, HasNewCell, MakeTried, BucketsOk, TriedCell;
    var found := LookupService(s, a);
    if found.Some? {
      var n := found.value;
      GoodStamps(b, s, n, time);
      var s1 := Touch(s.(lastGood := time), n, s.info[n].(lastSuccess := time, lastTry := time, attempts := 0));
      if !s1.info[n].inTried {
        assert HasNewCell(b, s1, n) by { OkIsConsistent(b, s1); NewEntryHasCell(b, s1, n); }
        if !testBeforeEvict || TriedCell(b, a) !in s1.tried {
          GoodMoves(b, s1, n);
          EvolvesTransitively(s, s1, MakeTried(b, s1, n));
        } else if |s1.collisions| < MAX_COLLISIONS {
          GoodWaits(b, s1, n);
          EvolvesTransitively(s, s1, s1.(collisions := s1.collisions + {n}));
        }
      }
    } else {
      GoodUnknown(b, s, time);
    }
  }

  lemma GoodUnknown(b: Buckets, s: State, time: int)
    requires Ok(b, s)
    ensures Ok(b, s.(lastGood := time)) && Evolves(s, s.(lastGood := time))
  {
    hide RandomOk, AddrOk, TriedOk, NewOk, CountsOk, StampsOk, RefsOk;
  }

  lemma OkIsConsistent(b: Buckets, s: State)
    requires Ok(b, s)
    ensures Consistent(b, s, {})
  {
  }

  datatype Announced = Announced(service: Service, time: int, services: set<nat>)

  predicate Terrible(i: AddrInfo, now: int) {
    if i.lastTry != 0 && i.lastTry >= now - MINUTE then false
    else
      || i.time > now + 10 * MINUTE
      || i.time == 0 || now - i.time > 30 * DAY
      || (i.lastSuccess == 0 && i.attempts >= 3)
      || (now - i.lastSuccess > 7 * DAY && i.attempts >= 10)
  }

  function Max(x: int, y: int): int {
    if x < y then y else x
  }

  // What an announcement changes of an entry that is known.
  function Refresh(i: AddrInfo, a: Announced, penalty: int, now: int): AddrInfo {
    var interval := if now - a.time < DAY then HOUR else DAY;
    var newer := a.time != 0 && (i.time == 0 || i.time < a.time - interval - penalty);
    var time := if newer then Max(0, a.time - penalty) else i.time;
    i.(time := time, services := i.services + a.services)
  }

  // Puts an entry into the bucket its source leads to, if there is room for it.
  function Place(b: Buckets, s: State, n: Id, source: NetAddr, now: int): State {
    if n !in s.info then s
    else
      var i := s.info[n];
      var c := NewCell(b, i.service, b.introduced(i.service, source));
      if Holds(s.news, c, n) then s
      else if c !in s.news || s.news[c] !in s.info
           || Terrible(s.info[s.news[c]], now) || (s.info[s.news[c]].refCount > 1 && i.refCount == 0) then
        Attach(ClearNew(s, c), n, c)
      else if i.refCount == 0 then Delete(s, n)
      else s
  }

  lemma SettleIsConsistent(b: Buckets, s: State, loose: set<Id>, n: Id, c: Cell)
    requires Consistent(b, s, loose) && n in s.info && !s.info[n].inTried && s.info[n].refCount < MAX_REFS
    requires !Holds(s.news, c, n) && c.bucket < NEW_BUCKETS && c == NewCell(b, s.info[n].service, c.bucket)
    ensures Consistent(b, Attach(ClearNew(s, c), n, c), loose - {n})
    ensures Evolves(s, Attach(ClearNew(s, c), n, c)) && Attach(ClearNew(s, c), n, c).collisions == s.collisions
  {
    hide RandomOk, AddrOk, TriedOk, NewOk, CountsOk, StampsOk;
    ClearNewIsConsistent(b, s, loose, c);
    ClearNewFrame(s, c);
    AttachIsConsistent(b, ClearNew(s, c), loose, n, c);
  }

  lemma DropIsConsistent(b: Buckets, s: State, n: Id)
    requires Consistent(b, s, {n})
    ensures Consistent(b, Delete(s, n), {}) && Evolves(s, Delete(s, n)) && Delete(s, n).collisions == s.collisions
  {
    hide RandomOk, AddrOk, TriedOk, NewOk, CountsOk, StampsOk;
    DeleteIsConsistent(b, s, {n}, n);
    DeleteFrame(s, n);
    assert {n} - {n} == {};
  }

  lemma PlaceIsConsistent(b: Buckets, s: State, loose: set<Id>, n: Id, source: NetAddr, now: int)
    requires BucketsOk(b) && Consistent(b, s, loose) && n in s.info && !s.info[n].inTried &&
             s.info[n].refCount < MAX_REFS
    requires loose == if s.info[n].refCount == 0 then {n} else {}
    ensures Consistent(b, Place(b, s, n, source, now), {})
    ensures Evolves(s, Place(b, s, n, source, now)) && Place(b, s, n, source, now).collisions == s.collisions
  {
    hide RandomOk, AddrOk, TriedOk, NewOk, CountsOk, StampsOk, RefsOk, Attach, ClearNew, Delete;
    var c := NewCell(b, s.info[n].service, b.introduced(s.info[n].service, source));
    if s.info[n].refCount == 0 { NoRefsNoCells(b, s.info, s.news, n); }
    assert loose - {n} == {};
    if !Holds(s.news, c, n) {
      SettleIsConsistent(b, s, loose, n, c);
      if s.info[n].refCount == 0 { DropIsConsistent(b, s, n); }
    }
  }

  function NewInfo(a: Announced, source: NetAddr, penalty: int): AddrInfo {
    AddrInfo(a.service, Max(0, a.time - penalty), a.services, source, 0, 0, 0, 0, 0, false, -1)
  }

  function AddNewEntry(b: Buckets, s: State, a: Announced, source: NetAddr, penalty: int, now: int): State {
    Place(b, Create(s, NewInfo(a, source, penalty)), s.idCount, source, now)
  }

  // `lucky` is the outcome of the draw that makes further references to a known address rare.
  function AddKnownEntry(b: Buckets, s: State, n: Id, a: Announced, source: NetAddr, penalty: int, now: int,
      lucky: bool): State
    requires n in s.info
  {
    var i := Refresh(s.info[n], a, penalty, now);
    var s1 := Touch(s, n, i);
    if a.time == 0 || (i.time != 0 && a.time <= i.time) then s1
    else if i.inTried || i.refCount == MAX_REFS || (i.refCount > 0 && !lucky) then s1
    else Place(b, s1, n, source, now)
  }

  function Add(b: Buckets, s: State, a: Announced, source: NetAddr, timePenalty: int, now: int, lucky: bool)
    : (State, bool)
  {
    var penalty := if a.service.net == source then 0 else timePenalty;
    var found := Lookup(s, a.service.net);
    if !b.routable(a.service.net) then (s, false)
    else if found.None? then (AddNewEntry(b, s, a, source, penalty, now), true)
    else (AddKnownEntry(b, s, found.value, a, source, penalty, now, lucky), false)
  }

  lemma AddUnknown(b: Buckets, s: State, i: AddrInfo, source: NetAddr, now: int)
    requires BucketsOk(b) && Ok(b, s) && i.service.net !in s.addr && i.lastTry >= 0 && i.lastSuccess >= 0
    ensures var s' := Place(b, Create(s, i), s.idCount, source, now); Ok(b, s') && Evolves(s, s')
  {
    hide RandomOk, AddrOk, TriedOk, NewOk, CountsOk, RefsOk, StampsOk, Place;
    var s1 := Create(s, i);
    CreateIsConsistent(b, s, i);
    PlaceIsConsistent(b, s1, {s.idCount}, s.idCount, source, now);
    EvolvesKeepsCollisions(b, s, Place(b, s1, s.idCount, source, now));
  }

  lemma AddKnown(b: Buckets, s: State, n: Id, i: AddrInfo, source: NetAddr, now: int)
    requires BucketsOk(b) && Ok(b, s) && n in s.info && SamePlace(i, s.info[n]) && StampOk(i)
    ensures Ok(b, Touch(s, n, i)) && Evolves(s, Touch(s, n, i))
    ensures !i.inTried && i.refCount != MAX_REFS ==>
              var s' := Place(b, Touch(s, n, i), n, source, now); Ok(b, s') && Evolves(s, s')
  {
    hide RandomOk, AddrOk, TriedOk, NewOk, CountsOk, StampsOk, Place;
    var s1 := Touch(s, n, i);
    TouchIsConsistent(b, s, {}, n, i);
    if !i.inTried && i.refCount != MAX_REFS {
      PlaceIsConsistent(b, s1, {}, n, source, now);
      EvolvesKeepsCollisions(b, s, Place(b, s1, n, source, now));
    }
  }

  lemma AddIsOk(b: Buckets, s: State, a: Announced, source: NetAddr, timePenalty: int, now: int, lucky: bool)
    requires BucketsOk(b) && Ok(b, s)
    ensures var s' := Add(b, s, a, source, timePenalty, now, lucky).0; Ok(b, s') && Evolves(s, s')
    ensures Add(b, s, a, source, timePenalty, now, lucky).1 <==> b.routable(a.service.net) && a.service.net !in s.addr
    ensures !b.routable(a.service.net) ==> Add(b, s, a, source, timePenalty, now, lucky).0 == s
  {
    hide RandomOk, TriedOk, NewOk, CountsOk, RefsOk, Place, Touch, Create;
    var penalty := if a.service.net == source then 0 else timePenalty;
    var found := Lookup(s, a.service.net);
    if found.None? {
      AddUnknown(b, s, NewInfo(a, source, penalty), source, now);
    } else {
      AddKnown(b, s, found.value, Refresh(s.info[found.value], a, penalty, now), source, now);
    }
  }

  function Attempt(s: State, a: Service, countFailure: bool, time: int): State {
    var found := LookupService(s, a);
    if found.None? then s
    else
      var i := s.info[found.value].(lastTry := time);
      Touch(s, found.value,
            if countFailure && i.lastCountAttempt < s.lastGood
            then i.(lastCountAttempt := time, attempts := i.attempts + 1) else i)
  }

  function Connected(s: State, a: Service, time: int): State {
    var found := LookupService(s, a);
    if found.None? || time - s.info[found.value].time <= 20 * MINUTE then s
    else Touch(s, found.value, s.info[found.value].(time := time))
  }

  function SetServices(s: State, a: Service, services: set<nat>): State {
    var found := LookupService(s, a);
    if found.None? then s else Touch(s, found.value, s.info[found.value].(services := services))
  }

  lemma TouchIsOk(b: Buckets, s: State, n: Id, i: AddrInfo)
    requires Ok(b, s) && n in s.info && SamePlace(i, s.info[n]) && StampOk(i)
    ensures Ok(b, Touch(s, n, i)) && Evolves(s, Touch(s, n, i))
  {
    hide RandomOk, AddrOk, TriedOk, NewOk, CountsOk, StampsOk;
    TouchIsConsistent(b, s, {}, n, i);
  }

  lemma HasStamps(b: Buckets, s: State, n: Id)
    requires Ok(b, s) && n in s.info
    ensures StampOk(s.info[n])
  {
  }

  // GetAddr walks the random order and swaps a drawn entry into each place.
  function Shuffle(s: State, draws: seq<nat>): State {
    if draws == [] then s
    else SwapRandom(Shuffle(s, draws[..|draws| - 1]), |draws| - 1, draws[|draws| - 1])
  }

  lemma {:induction false} ShuffleIsOk(b: Buckets, s: State, draws: seq<nat>)
    requires Ok(b, s) && |draws| <= |s.random|
    requires forall k | 0 <= k < |draws| :: k <= draws[k] < |s.random|
    ensures Ok(b, Shuffle(s, draws)) && |Shuffle(s, draws).random| == |s.random|
    ensures SameButPositions(s.info, Shuffle(s, draws).info)
    ensures Evolves(s, Shuffle(s, draws))
  {
    hide Ok, Evolves;
    EvolvesTransitively(s, s, s);
    if draws != [] {
      var k := |draws| - 1;
      ShuffleIsOk(b, s, draws[..k]);
      SwapIsOk(b, Shuffle(s, draws[..k]), k, draws[k]);
      EvolvesTransitively(s, Shuffle(s, draws[..k]), Shuffle(s, draws));
    }
  }

  lemma SwapIsOk(b: Buckets, s: State, p: nat, q: nat)
    requires Ok(b, s) && p < |s.random| && q < |s.random|
    ensures Ok(b, SwapRandom(s, p, q)) && |SwapRandom(s, p, q).random| == |s.random|
    ensures SameButPositions(s.info, SwapRandom(s, p, q).info) && Evolves(s, SwapRandom(s, p, q))
  {
    hide RandomOk, AddrOk, TriedOk, NewOk, CountsOk, StampsOk, RefsOk;
    SwapIsConsistent(b, s, p, q, {});
  }

  lemma EvolvesTransitively(s: State, t: State, u: State)
    ensures Evolves(s, s)
    ensures Evolves(s, t) && Evolves(t, u) ==> Evolves(s, u)
  {
  }

  // The addresses GetAddr reports for the first entries of the random order.
  function Kept(info: map<Id, AddrInfo>, ids: seq<Id>, now: int): seq<Service> {
    if ids == [] then []
    else
      var n := ids[|ids| - 1];
      Kept(info, ids[..|ids| - 1], now) + (if n in info && !Terrible(info[n], now) then [info[n].service] else [])
  }

  lemma {:induction false} KeptIgnoresPositions(info: map<Id, AddrInfo>, info': map<Id, AddrInfo>, ids: seq<Id>,
      now: int)
    requires SameButPositions(info, info')
    ensures Kept(info', ids, now) == Kept(info, ids, now) && |Kept(info, ids, now)| <= |ids|
  {
    if ids != [] { KeptIgnoresPositions(info, info', ids[..|ids| - 1], now); }
  }

  // One entry waiting for the tried table.
  function ResolveOne(b: Buckets, s: State, n: Id, now: int): State {
    var erased := s.(collisions := s.collisions - {n});
    if n !in s.info then erased
    else
      var i := s.info[n];
      var c := TriedCell(b, i.service);
      if !b.valid(i.service.net) then erased
      else if c in s.tried && s.tried[c] in s.info then
        var j := s.info[s.tried[c]];
        if now - j.lastSuccess < 4 * HOUR then erased
        else if now - j.lastTry < 4 * HOUR then
          if now - j.lastTry > 60 then Resolved(b, s, n, now) else s
        else if now - i.lastSuccess > 40 * MINUTE then Resolved(b, s, n, now)
        else s
      else Resolved(b, s, n, now)
  }

  function Resolved(b: Buckets, s: State, n: Id, now: int): State
    requires n in s.info
  {
    var s' := Good(b, s, s.info[n].service, false, now);
    s'.(collisions := s'.collisions - {n})
  }

  lemma ErasedIsOk(b: Buckets, s: State, n: Id)
    requires Ok(b, s)
    ensures Ok(b, s.(collisions := s.collisions - {n}))
  {
    hide RandomOk, AddrOk, TriedOk, NewOk, CountsOk, StampsOk, RefsOk;
    if n !in s.collisions { assert s.collisions - {n} == s.collisions; }
  }

  lemma ResolveOneIsOk(b: Buckets, s: State, n: Id, now: int)
    requires BucketsOk(b) && Ok(b, s) && now > 0
    ensures Ok(b, ResolveOne(b, s, n, now)) && Evolves(s, ResolveOne(b, s, n, now))
    ensures ResolveOne(b, s, n, now).collisions <= s.collisions
  {
    hide Ok, Good;
    ErasedIsOk(b, s, n);
    if n in s.info {
      GoodIsOk(b, s, s.info[n].service, false, now);
      ErasedIsOk(b, Good(b, s, s.info[n].service, false, now), n);
    }
  }

  function Resolve(b: Buckets, s: State, order: seq<Id>, now: int): State {
    if order == [] then s else ResolveOne(b, Resolve(b, s, order[..|order| - 1], now), order[|order| - 1], now)
  }

  lemma {:induction false} ResolveIsOk(b: Buckets, s: State, order: seq<Id>, now: int)
    requires BucketsOk(b) && Ok(b, s) && now > 0
    ensures Ok(b, Resolve(b, s, order, now)) && Evolves(s, Resolve(b, s, order, now))
    ensures Resolve(b, s, order, now).collisions <= s.collisions
  {
    hide Ok, Evolves, ResolveOne;
    EvolvesTransitively(s, s, s);
    if order != [] {
      var s1 := Resolve(b, s, order[..|order| - 1], now);
      ResolveIsOk(b, s, order[..|order| - 1], now);
      ResolveOneIsOk(b, s1, order[|order| - 1], now);
      EvolvesTransitively(s, s1, Resolve(b, s, order, now));
    }
  }

  // The entry that a waiting one would replace always exists.
  lemma CollisionHasHolder(b: Buckets, s: State, n: Id)
    requires Ok(b, s) && n in s.collisions && n in s.info
    ensures var c := TriedCell(b, s.info[n].service); c in s.tried && s.tried[c] in s.info && s.info[s.tried[c]].inTried
  {
  }

  // Selecting from a table that is not empty by count finds an entry.
  lemma SelectFinds(b: Buckets, s: State)
    requires Ok(b, s)
    ensures s.nTried > 0 <==> s.tried != map[]
    ensures s.nNew > 0 <==> s.news != map[]
    ensures forall c | c in s.tried :: s.tried[c] in s.info
    ensures forall c | c in s.news :: s.news[c] in s.info
    ensures s.nTried + s.nNew == |s.random| == |s.info|
  {
    hide RandomOk, AddrOk, RefCountsOk, StampsOk;
    SelectCounts(s.info, s.random, s.nTried, s.nNew);
    if s.nTried > 0 {
      var n :| n in TriedIds(s.info);
      assert TriedCell(b, s.info[n].service) in s.tried;
    }
    if s.tried != map[] {
      var c :| c in s.tried;
      assert s.tried[c] in TriedIds(s.info);
    }
    if s.nNew > 0 {
      var n :| n in NewIds(s.info);
      NewEntryHasCell(b, s, n);
    }
    if s.news != map[] {
      var c :| c in s.news;
      assert s.news[c] in NewIds(s.info);
    }
  }

  lemma SelectKinds(b: Buckets, s: State)
    requires Ok(b, s)
    ensures s.nNew == 0 <==> forall n | n in s.info :: s.info[n].inTried
    ensures forall c | c in s.news :: s.news[c] in s.info && !s.info[s.news[c]].inTried
    ensures s.nNew >= 0 && s.nTried >= 0
  {
    hide RandomOk, AddrOk, TriedOk, StampsOk, RefsOk;
    if s.nNew == 0 {
      assert NewIds(s.info) == {};
      assert forall n | n in s.info :: n !in NewIds(s.info);
    }
    if forall n | n in s.info :: s.info[n].inTried { assert NewIds(s.info) == {}; }
  }

  lemma SelectCounts(info: map<Id, AddrInfo>, random: seq<Id>, nTried: int, nNew: int)
    requires RandomOk(info, random) && CountsOk(info, nTried, nNew)
    ensures nTried + nNew == |random| == |info|
  {
    assert TriedIds(info) + NewIds(info) == info.Keys;
    DistinctSize(random);
    var ids := set k | 0 <= k < |random| :: random[k];
    assert ids == info.Keys by {
      forall n | n in info ensures n in ids { assert random[info[n].randomPos] == n; }
    }
  }

  lemma {:induction false} DistinctSize(r: seq<Id>)
    requires forall i, j | 0 <= i < j < |r| :: r[i] != r[j]
    ensures |set k | 0 <= k < |r| :: r[k]| == |r|
  {
    if r != [] {
      var init := r[..|r| - 1];
      DistinctSize(init);
      assert (set k | 0 <= k < |r| :: r[k]) == (set k | 0 <= k < |init| :: init[k]) + {r[|r| - 1]};
    }
  }

  /* ----- Runs ----- */

  datatype Op =
    | AddOp(a: Announced, source: NetAddr, timePenalty: int, now: int, lucky: bool)
    | GoodOp(service: Service, testBeforeEvict: bool, time: int)
    | AttemptOp(service: Service, countFailure: bool, time: int)
    | ConnectedOp(service: Service, time: int)
    | SetServicesOp(service: Service, services: set<nat>)
    | GetAddrOp(draws: seq<nat>)
    | ResolveOp(order: seq<Id>, now: int)
    | SelectCollisionOp(n: Id)

  function SelectCollision(s: State, n: Id): State {
    if n in s.info then s else s.(collisions := s.collisions - {n})
  }

  function Step(b: Buckets, s: State, op: Op): State {
    match op
    case AddOp(a, source, timePenalty, now, lucky) => Add(b, s, a, source, timePenalty, now, lucky).0
    case GoodOp(a, testBeforeEvict, time) => Good(b, s, a, testBeforeEvict, time)
    case AttemptOp(a, countFailure, time) => Attempt(s, a, countFailure, time)
    case ConnectedOp(a, time) => Connected(s, a, time)
    case SetServicesOp(a, services) => SetServices(s, a, services)
    case GetAddrOp(draws) => Shuffle(s, draws)
    case ResolveOp(order, now) => Resolve(b, s, order, now)
    case SelectCollisionOp(n) => SelectCollision(s, n)
  }

  // Clocks show positive times, and draws stay within the entries not yet placed.
  predicate Timely(s: State, op: Op) {
    match op
    case GoodOp(_, _, time) => time > 0
    case AttemptOp(_, _, time) => time > 0
    case ResolveOp(_, now) => now > 0
    case GetAddrOp(draws) => |draws| <= |s.random| && forall k | 0 <= k < |draws| :: k <= draws[k] < |s.random|
    case _ => true
  }

  function Run(b: Buckets, s: State, ops: seq<Op>): State {
    if ops == [] then s else Step(b, Run(b, s, ops[..|ops| - 1]), ops[|ops| - 1])
  }

  predicate TimelyRun(b: Buckets, s: State, ops: seq<Op>) {
    ops == [] ||
    (TimelyRun(b, s, ops[..|ops| - 1]) && Timely(Run(b, s, ops[..|ops| - 1]), ops[|ops| - 1]))
  }

  lemma StepIsOk(b: Buckets, s: State, op: Op)
    requires BucketsOk(b) && Ok(b, s) && Timely(s, op)
    ensures Ok(b, Step(b, s, op)) && Evolves(s, Step(b, s, op))
  {
    hide Ok, Evolves, Add, Good, Shuffle, Resolve, Touch, BucketsOk;
    EvolvesTransitively(s, s, s);
    match op
    case AddOp(a, source, timePenalty, now, lucky) => AddIsOk(b, s, a, source, timePenalty, now, lucky);
    case GoodOp(a, testBeforeEvict, time) => GoodIsOk(b, s, a, testBeforeEvict, time);
    case AttemptOp(a, countFailure, time) => AttemptIsOk(b, s, a, countFailure, time);
    case ConnectedOp(a, time) => ConnectedIsOk(b, s, a, time);
    case SetServicesOp(a, services) => SetServicesIsOk(b, s, a, services);
    case GetAddrOp(draws) => ShuffleIsOk(b, s, draws);
    case ResolveOp(order, now) => ResolveIsOk(b, s, order, now);
    case SelectCollisionOp(n) => SelectCollisionIsOk(b, s, n);
  }

  lemma AttemptIsOk(b: Buckets, s: State, a: Service, countFailure: bool, time: int)
    requires Ok(b, s) && time > 0
    ensures Ok(b, Attempt(s, a, countFailure, time)) && Evolves(s, Attempt(s, a, countFailure, time))
  {
    hide Ok, Evolves;
    EvolvesTransitively(s, s, s);
    var found := LookupService(s, a);
    if found.Some? {
      HasStamps(b, s, found.value);
      TouchIsOk(b, s, found.value, Attempt(s, a, countFailure, time).info[found.value]);
    }
  }

  lemma ConnectedIsOk(b: Buckets, s: State, a: Service, time: int)
    requires Ok(b, s)
    ensures Ok(b, Connected(s, a, time)) && Evolves(s, Connected(s, a, time))
  {
    hide Ok, Evolves;
    EvolvesTransitively(s, s, s);
    var found := LookupService(s, a);
    if found.Some? {
      HasStamps(b, s, found.value);
      TouchIsOk(b, s, found.value, s.info[found.value].(time := time));
    }
  }

  lemma SetServicesIsOk(b: Buckets, s: State, a: Service, services: set<nat>)
    requires Ok(b, s)
    ensures Ok(b, SetServices(s, a, services)) && Evolves(s, SetServices(s, a, services))
  {
    hide Ok, Evolves;
    EvolvesTransitively(s, s, s);
    var found := LookupService(s, a);
    if found.Some? {
      HasStamps(b, s, found.value);
      TouchIsOk(b, s, found.value, s.info[found.value].(services := services));
    }
  }

  lemma SelectCollisionIsOk(b: Buckets, s: State, n: Id)
    requires Ok(b, s)
    ensures Ok(b, SelectCollision(s, n)) && Evolves(s, SelectCollision(s, n))
  {
    hide Ok;
    ErasedIsOk(b, s, n);
  }

  // After every run from a fresh manager its consistency check succeeds, no tried cell has been
  // freed again and no id has come to name another address.
  lemma {:induction false} RunIsOk(b: Buckets, ops: seq<Op>)
    requires BucketsOk(b) && TimelyRun(b, EMPTY, ops)
    ensures Ok(b, Run(b, EMPTY, ops))
    ensures forall k | 0 <= k <= |ops| :: Evolves(Run(b, EMPTY, ops[..k]), Run(b, EMPTY, ops))
  {
    hide Ok, Evolves, Step;
    if ops == [] {
      EmptyIsOk(b);
      EvolvesTransitively(EMPTY, EMPTY, EMPTY);
    } else {
      var init, last := ops[..|ops| - 1], ops[|ops| - 1];
      var s := Run(b, EMPTY, init);
      RunIsOk(b, init);
      StepIsOk(b, s, last);
      var s' := Run(b, EMPTY, ops);
      forall k | 0 <= k <= |ops| ensures Evolves(Run(b, EMPTY, ops[..k]), s') {
        if k < |ops| {
          assert ops[..k] == init[..k];
          EvolvesTransitively(Run(b, EMPTY, ops[..k]), s, s');
        } else {
          assert ops[..k] == ops;
          EvolvesTransitively(s', s', s');
        }
      }
    }
  }
}
