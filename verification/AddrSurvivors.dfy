/**
 Which entries of a stream survive being read. Of the tried entries those that come first for their cell, whatever
 the stream; of the new ones, when the bucket lists cannot be used, those that come first for the cell their source
 leads to.
 */
module AddrSurvivors {
  import opened AddrTables
  import opened AddrSerialize
  import opened AddrForeign
  import AddrOps

  // The cell of the new table that the source of an entry leads to.
  function HomeOf(b: Buckets, x: Saved): Cell {
    var bucket := b.introduced(x.service, x.source);
    Cell(bucket, b.position(x.service, true, bucket))
  }

  predicate FirstHome(b: Buckets, xs: seq<Saved>, k: nat)
    requires k < |xs|
  {
    forall j | 0 <= j < k :: HomeOf(b, xs[j]) != HomeOf(b, xs[k])
  }

  // The entry as it is read, without its place in the random order.
  function Plain(x: Saved): AddrInfo {
    AddrInfo(x.service, x.time, x.services, x.source, 0, 0, x.lastSuccess, x.attempts, 0, false, 0)
  }

  predicate IsRead(i: AddrInfo, x: Saved, refCount: int, inTried: bool) {
    i == Plain(x).(refCount := refCount, inTried := inTried, randomPos := i.randomPos)
  }

  /* ----- New entries ----- */

  function Homes(b: Buckets, xs: seq<Saved>): set<Cell> {
    set k | 0 <= k < |xs| :: HomeOf(b, xs[k])
  }

  lemma OneMoreHome(b: Buckets, xs: seq<Saved>, x: Saved)
    ensures Homes(b, xs + [x]) == Homes(b, xs) + {HomeOf(b, x)}
    ensures FirstHome(b, xs + [x], |xs|) <==> HomeOf(b, x) !in Homes(b, xs)
    ensures forall k | 0 <= k < |xs| :: FirstHome(b, xs + [x], k) <==> FirstHome(b, xs, k)
  {
    hide HomeOf;
    var ys := xs + [x];
    assert ys[|xs|] == x && forall k | 0 <= k < |xs| :: ys[k] == xs[k];
    assert forall k | 0 <= k < |xs| :: HomeOf(b, xs[k]) in Homes(b, xs);
  }

  ghost predicate EntriesRead(b: Buckets, xs: seq<Saved>, info: map<Id, AddrInfo>) {
    && (forall n | n in info :: n < |xs|)
    && (forall k | 0 <= k < |xs| :: k in info && IsRead(info[k], xs[k], if FirstHome(b, xs, k) then 1 else 0, false))
  }

  ghost predicate PlacedSoFar(b: Buckets, xs: seq<Saved>, s: State) {
    s.idCount == |xs| && s.tried == map[] && EntriesRead(b, xs, s.info) && s.news.Keys == Homes(b, xs)
  }

  lemma EntryRead(b: Buckets, xs: seq<Saved>, x: Saved, info: map<Id, AddrInfo>, i: AddrInfo)
    requires EntriesRead(b, xs, info)
    requires IsRead(i, x, if HomeOf(b, x) in Homes(b, xs) then 0 else 1, false)
    ensures EntriesRead(b, xs + [x], info[|xs| := i])
  {
    hide HomeOf, IsRead, FirstHome, Homes;
    OneMoreHome(b, xs, x);
    var ys := xs + [x];
    assert ys[|xs|] == x && forall k | 0 <= k < |xs| :: ys[k] == xs[k];
  }

  lemma PlacedNext(b: Buckets, xs: seq<Saved>, x: Saved, s: State)
    requires PlacedSoFar(b, xs, s)
    ensures PlacedSoFar(b, xs + [x], PlaceOne(b, LoadNewOne(s, |xs|, x), |xs|))
  {
    hide EntriesRead, Homes;
    OneMoreHome(b, xs, x);
    var n := |xs|;
    var s1 := LoadNewOne(s, n, x);
    var s', c := PlaceOne(b, s1, n), HomeOf(b, x);
    assert AddrOps.IntroducedCell(b, s1.info[n]) == c;
    EntryRead(b, xs, x, s.info, s'.info[n]);
    assert s'.info == s.info[n := s'.info[n]];
  }

  lemma {:induction false} PlacedIs(b: Buckets, xs: seq<Saved>)
    ensures PlacedSoFar(b, xs, LoadPlaced(b, xs))
  {
    hide PlacedSoFar, PlaceOne, LoadNewOne;
    if xs == [] {
      NonePlaced(b);
    } else {
      var init, x := xs[..|xs| - 1], xs[|xs| - 1];
      assert xs == init + [x];
      PlacedIs(b, init);
      PlacedNext(b, init, x, LoadPlaced(b, init));
    }
  }

  lemma NonePlaced(b: Buckets)
    ensures PlacedSoFar(b, [], EMPTY)
  {
  }

  // Reading the tried entries leaves the others alone.
  lemma {:induction false} TriedLeaveNew(b: Buckets, s: State, xs: seq<Saved>)
    requires forall n | n in s.info :: n < s.idCount
    ensures var s' := LoadTried(b, s, xs);
            && s'.news == s.news && s.idCount <= s'.idCount && (forall n | n in s'.info :: n < s'.idCount)
            && forall n | n < s.idCount :: (n in s'.info <==> n in s.info) && (n in s.info ==> s'.info[n] == s.info[n])
  {
    if xs != [] { TriedLeaveNew(b, s, xs[..|xs| - 1]); }
  }

  // From a stream of another version or number of buckets, a new entry survives if and only if none before it leads to
  // the same cell; it then has that cell and no other.
  lemma NewSurvivesIff(b: Buckets, t: Stream, k: nat)
    requires BucketsOk(b) && !(t.version == 1 && |t.buckets| == 1024) && k < |t.newInfos|
    ensures k in Unserialize(b, t).info
       <==> forall j | 0 <= j < k :: HomeOf(b, t.newInfos[j]) != HomeOf(b, t.newInfos[k])
    ensures k in Unserialize(b, t).info ==> IsRead(Unserialize(b, t).info[k], t.newInfos[k], 1, false)
  {
    hide LoadPlaced, LoadTried, Loaded, Prune, BucketsOk;
    PlacedIs(b, t.newInfos);
    TriedLeaveNew(b, LoadPlaced(b, t.newInfos), t.triedInfos);
    LoadIsLoaded(b, t);
    PrunedAll(b, Load(b, t));
    var s, s' := Load(b, t), Unserialize(b, t);
    assert s == LoadTried(b, LoadPlaced(b, t.newInfos), t.triedInfos);
    assert k in s.info && IsRead(s.info[k], t.newInfos[k], if FirstHome(b, t.newInfos, k) then 1 else 0, false);
  }

  /* ----- Tried entries ----- */

  function TriedCellOf(b: Buckets, x: Saved): Cell {
    Cell(b.tried(x.service), b.position(x.service, false, b.tried(x.service)))
  }

  predicate FirstTried(b: Buckets, xs: seq<Saved>, k: nat)
    requires k < |xs|
  {
    forall j | 0 <= j < k :: TriedCellOf(b, xs[j]) != TriedCellOf(b, xs[k])
  }

  // The cell holds an entry, numbered from m on, that was read from x.
  predicate HoldsRead(s: State, m: nat, c: Cell, x: Saved) {
    c in s.tried && s.tried[c] in s.info && m <= s.tried[c] && IsRead(s.info[s.tried[c]], x, 0, true)
  }

  function TriedCells(b: Buckets, xs: seq<Saved>): set<Cell> {
    set k | 0 <= k < |xs| :: TriedCellOf(b, xs[k])
  }

  lemma OneMoreTried(b: Buckets, xs: seq<Saved>, x: Saved)
    ensures TriedCells(b, xs + [x]) == TriedCells(b, xs) + {TriedCellOf(b, x)}
    ensures FirstTried(b, xs + [x], |xs|) <==> TriedCellOf(b, x) !in TriedCells(b, xs)
    ensures forall k | 0 <= k < |xs| :: FirstTried(b, xs + [x], k) <==> FirstTried(b, xs, k)
    ensures forall k | 0 <= k < |xs| :: TriedCellOf(b, xs[k]) in TriedCells(b, xs)
  {
    hide TriedCellOf;
    var ys := xs + [x];
    assert ys[|xs|] == x && forall k | 0 <= k < |xs| :: ys[k] == xs[k];
  }

  ghost predicate TriedSoFar(b: Buckets, m: nat, xs: seq<Saved>, s: State) {
    && m <= s.idCount && (forall n | n in s.info :: n < s.idCount) && s.tried.Keys == TriedCells(b, xs)
    && (forall k | 0 <= k < |xs| && FirstTried(b, xs, k) :: HoldsRead(s, m, TriedCellOf(b, xs[k]), xs[k]))
  }

  lemma TriedNext(b: Buckets, m: nat, xs: seq<Saved>, x: Saved, s: State)
    requires TriedSoFar(b, m, xs, s)
    ensures TriedSoFar(b, m, xs + [x], LoadTriedOne(b, s, x))
  {
    hide IsRead, TriedCellOf, TriedCells, FirstTried;
    OneMoreTried(b, xs, x);
    TriedCellIs(b, x);
    var ys, s', n := xs + [x], LoadTriedOne(b, s, x), |xs|;
    assert ys[n] == x && forall k | 0 <= k < n :: ys[k] == xs[k];
    ReadAsTried(x, |s.random|);
    forall k | 0 <= k < |ys| && FirstTried(b, ys, k) ensures HoldsRead(s', m, TriedCellOf(b, ys[k]), ys[k]) {
      if k < n { assert FirstTried(b, xs, k); }
    }
  }

  lemma TriedCellIs(b: Buckets, x: Saved)
    ensures TriedCellOf(b, x) == TriedCell(b, x.service)
  {
  }

  lemma ReadAsTried(x: Saved, pos: nat)
    ensures IsRead(Restore(x, pos).(inTried := true), x, 0, true)
  {
  }

  lemma {:induction false} TriedIs(b: Buckets, s: State, xs: seq<Saved>)
    requires s.tried == map[] && forall n | n in s.info :: n < s.idCount
    ensures TriedSoFar(b, s.idCount, xs, LoadTried(b, s, xs))
  {
    if xs != [] {
      hide TriedSoFar, LoadTriedOne;
      var init, x := xs[..|xs| - 1], xs[|xs| - 1];
      assert xs == init + [x];
      TriedIs(b, s, init);
      TriedNext(b, s.idCount, init, x, LoadTried(b, s, init));
    }
  }

  // The bucket lists name new entries only.
  lemma {:induction false} BucketLeavesTried(b: Buckets, s: State, bucket: nat, list: seq<int>)
    ensures var s' := LoadBucket(b, s, bucket, list);
            && s'.tried == s.tried && s'.nNew == s.nNew && s'.idCount == s.idCount && s'.info.Keys == s.info.Keys
            && forall n | n in s.info && n >= s.nNew :: s'.info[n] == s.info[n]
  {
    if list != [] { BucketLeavesTried(b, s, bucket, list[..|list| - 1]); }
  }

  lemma {:induction false} BucketsLeaveTried(b: Buckets, s: State, buckets: seq<seq<int>>)
    ensures var s' := LoadBuckets(b, s, buckets);
            && s'.tried == s.tried && s'.nNew == s.nNew && s'.idCount == s.idCount && s'.info.Keys == s.info.Keys
            && forall n | n in s.info && n >= s.nNew :: s'.info[n] == s.info[n]
  {
    hide LoadBucket;
    if buckets != [] {
      var init := buckets[..|buckets| - 1];
      BucketsLeaveTried(b, s, init);
      BucketLeavesTried(b, LoadBuckets(b, s, init), |buckets| - 1, buckets[|buckets| - 1]);
    }
  }

  lemma {:induction false} PruneLeavesTried(s: State, count: nat)
    ensures Prune(s, count).tried == s.tried
  {
    hide Delete;
    if count > 0 {
      PruneLeavesTried(s, count - 1);
      DeleteFrame(Prune(s, count - 1), count - 1);
    }
  }

  // What is tried before pruning: from each cell that the stream names, the first entry.
  lemma TriedLoaded(b: Buckets, t: Stream)
    ensures TriedSoFar(b, |t.newInfos|, t.triedInfos, Load(b, t))
  {
    hide LoadFirst, LoadTried, LoadBuckets, RandomOk, IsRead, TriedCells, FirstTried;
    var s0 := LoadFirst(b, t.newInfos, Usable(t));
    LoadFirstNumbers(b, t.newInfos, Usable(t));
    FirstHasNoTried(b, t.newInfos, Usable(t));
    TriedIs(b, s0, t.triedInfos);
    var s1 := LoadTried(b, s0, t.triedInfos);
    LoadTriedNumbers(b, s0, t.triedInfos);
    BucketsLeaveTried(b, s1, t.buckets);
  }

  // From any stream, the tried table has exactly the cells that its tried entries lead to, and in each of them the
  // first of the entries that lead there.
  lemma TriedSurvives(b: Buckets, t: Stream)
    requires BucketsOk(b)
    ensures var s', xs := Unserialize(b, t), t.triedInfos;
            && (forall c :: c in s'.tried <==> exists k | 0 <= k < |xs| :: TriedCellOf(b, xs[k]) == c)
            && (forall k | 0 <= k < |xs| && FirstTried(b, xs, k) :: HoldsRead(s', 0, TriedCellOf(b, xs[k]), xs[k]))
  {
    hide Load, Loaded, Prune, BucketsOk, TriedCellOf, FirstTried, HoldsRead, TablesOk, Pruned;
    var s, xs := Load(b, t), t.triedInfos;
    TriedLoaded(b, t);
    LoadIsLoaded(b, t);
    PrunedAll(b, s);
    PruneLeavesTried(s, s.idCount);
    forall k | 0 <= k < |xs| && FirstTried(b, xs, k)
      ensures HoldsRead(Unserialize(b, t), 0, TriedCellOf(b, xs[k]), xs[k])
    {
      StaysTried(b, s, Unserialize(b, t), TriedCellOf(b, xs[k]), xs[k], |t.newInfos|);
    }
  }

  lemma StaysTried(b: Buckets, s: State, s': State, c: Cell, x: Saved, m: nat)
    requires HoldsRead(s, m, c, x) && Pruned(s, s') && TablesOk(b, s') && c == TriedCellOf(b, x)
    ensures HoldsRead(s', 0, c, x)
  {
    hide RandomOk, NewOk, CountsOk;
    var n := s.tried[c];
    assert !IsStray(s.info[n]) && n in s'.info && s'.info[n] == s.info[n].(randomPos := s'.info[n].randomPos);
    assert Holds(s'.tried, TriedCell(b, s'.info[n].service), n);
  }

  lemma {:induction false} FirstHasNoTried(b: Buckets, xs: seq<Saved>, usable: bool)
    ensures LoadFirst(b, xs, usable).tried == map[]
  {
    if xs != [] { FirstHasNoTried(b, xs[..|xs| - 1], usable); }
  }
}
