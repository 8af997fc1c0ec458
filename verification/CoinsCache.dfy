/**
 The cache objects themselves. Each cache owns its maps and sits on another cache or,
 at the bottom of the stack, on the coin database. Every method is proved against the
 functions of CoinsView and CoinsRuns, and keeps the cached memory usage exact.
 */
module CoinsCache {
  import opened Options
  import opened CoinsView
  import V = CoinsView
  import CoinsRuns
  import Totals

  function CoinUsage(e: CoinEntry): nat {
    if e.coin.Spent? then 0 else e.coin.script.usage
  }

  function TreeUsage(e: AnchorEntry): nat {
    e.tree.usage
  }

  lemma PutCoin(m: map<OutPoint, CoinEntry>, o: OutPoint, e: CoinEntry)
    ensures Totals.MapTotal(m[o := e], CoinUsage)
         == Totals.MapTotal(m, CoinUsage) - (if o in m then CoinUsage(m[o]) else 0) + CoinUsage(e)
  {
    Totals.MapTotalPut(m, o, e, CoinUsage);
    if o in m { Totals.MapTotalRemove(m, o, CoinUsage); } else { assert m - {o} == m; }
  }

  lemma PutAnchor(m: map<Hash, AnchorEntry>, a: Hash, e: AnchorEntry)
    ensures Totals.MapTotal(m[a := e], TreeUsage)
         == Totals.MapTotal(m, TreeUsage) - (if a in m then TreeUsage(m[a]) else 0) + TreeUsage(e)
  {
    Totals.MapTotalPut(m, a, e, TreeUsage);
    if a in m { Totals.MapTotalRemove(m, a, TreeUsage); } else { assert m - {a} == m; }
  }

  class CoinsDatabase {
    var db: Database

    constructor (db: Database)
      ensures this.db == db
    {
      this.db := db;
    }
  }

  class CoinsViewCache {
    const parent: CoinsViewCache?
    const disk: CoinsDatabase
    ghost const repr: set<object>

    var cacheCoins: map<OutPoint, CoinEntry>
    var hashBlock: Hash
    var cacheSaplingAnchors: map<Hash, AnchorEntry>
    var hashSaplingAnchor: Hash
    var cacheSaplingNullifiers: map<Hash, NullifierEntry>
    var cachedCoinsUsage: int

    ghost predicate Valid()
      reads this, repr
      decreases repr
    {
      && this in repr && disk in repr
      && (parent == null ==> repr == {this, disk})
      && (parent != null ==>
            && parent in repr && this !in parent.repr && repr == parent.repr + {this}
            && parent.disk == disk && parent.Valid())
      && UsageExact()
    }

    ghost predicate UsageExact()
      reads this
    {
      cachedCoinsUsage == Totals.MapTotal(cacheCoins, CoinUsage) + Totals.MapTotal(cacheSaplingAnchors, TreeUsage)
    }

    ghost function Own(): Layer
      reads this
    {
      Layer(cacheCoins, hashBlock, cacheSaplingAnchors, hashSaplingAnchor, cacheSaplingNullifiers)
    }

    ghost function Base(): Stack
      requires Valid()
      reads this, repr
      decreases repr, 0
    {
      if parent == null then Disk(disk.db) else parent.Model()
    }

    ghost function Model(): Stack
      requires Valid()
      reads this, repr
      decreases repr, 1
    {
      Cache(Own(), Base())
    }

    constructor OnDisk(disk: CoinsDatabase)
      ensures Valid() && fresh(repr - {disk})
      ensures Model() == CoinsRuns.Step(Disk(disk.db), CoinsRuns.NewCache)
    {
      this.parent, this.disk, this.repr := null, disk, {this, disk};
      cacheCoins, hashBlock, cacheSaplingAnchors, hashSaplingAnchor, cacheSaplingNullifiers, cachedCoinsUsage
        := map[], NULL, map[], NULL, map[], 0;
    }

    constructor OnCache(base: CoinsViewCache)
      requires base.Valid()
      ensures Valid() && repr == base.repr + {this} && parent == base
      ensures Model() == CoinsRuns.Step(base.Model(), CoinsRuns.NewCache)
    {
      this.parent, this.disk, this.repr := base, base.disk, base.repr + {this};
      cacheCoins, hashBlock, cacheSaplingAnchors, hashSaplingAnchor, cacheSaplingNullifiers, cachedCoinsUsage
        := map[], NULL, map[], NULL, map[], 0;
    }

    method FetchCoin(o: OutPoint) returns (found: bool)
      requires Valid()
      modifies repr
      ensures Valid()
      ensures Model() == V.GetCoin(old(Model()), o).0
      ensures found == (o in cacheCoins) == V.GetCoin(old(Model()), o).1.Some?
      decreases repr, 0
    {
      if o in cacheCoins {
        return true;
      }
      var coin;
      if parent == null {
        found, coin := o in disk.db.coins, Lookup(disk.db.coins, o);
      } else {
        found, coin := parent.GetCoin(o);
      }
      if !found {
        return false;
      }
      PutCoin(cacheCoins, o, CoinEntry(coin, false, coin.Spent?));
      cacheCoins := cacheCoins[o := CoinEntry(coin, false, coin.Spent?)];
      cachedCoinsUsage := cachedCoinsUsage + CoinUsage(cacheCoins[o]);
    }

    method GetCoin(o: OutPoint) returns (found: bool, coin: Coin)
      requires Valid()
      modifies repr
      ensures Valid()
      ensures Model() == V.GetCoin(old(Model()), o).0
      ensures V.GetCoin(old(Model()), o).1 == if found then Some(coin) else None
      decreases repr, 1
    {
      found := FetchCoin(o);
      coin := if found then cacheCoins[o].coin else Spent;
    }

    method HaveCoin(o: OutPoint) returns (have: bool)
      requires Valid()
      modifies repr
      ensures Valid()
      ensures Model() == V.GetCoin(old(Model()), o).0
      ensures have == (var r := V.GetCoin(old(Model()), o).1; r.Some? && r.value.Unspent?)
    {
      have := FetchCoin(o);
      have := have && cacheCoins[o].coin.Unspent?;
    }

    // When it throws, the usage of the coin found has already been taken off: it is the one way the count drifts.
    method AddCoin(o: OutPoint, coin: Coin, possibleOverwrite: bool) returns (thrown: bool)
      requires Valid() && coin.Unspent?
      modifies this
      ensures coin.script.unspendable || coin.script.zerocoinMint ==> !thrown && Valid() && Model() == old(Model())
      ensures thrown == CoinsRuns.AddThrows(old(Own()), o, coin, possibleOverwrite)
      ensures !thrown && !coin.script.unspendable && !coin.script.zerocoinMint ==>
              o in cacheCoins && cacheCoins[o].coin == coin && cacheCoins[o].isDirty
      ensures !thrown ==>
              Valid() && Model() == CoinsRuns.Write(old(Model()), CoinsRuns.AddCoin(o, coin, possibleOverwrite))
      ensures thrown ==> Own() == old(Own()) && cachedCoinsUsage == old(cachedCoinsUsage) - CoinUsage(cacheCoins[o])
      ensures UsageExact() <==> !thrown || CoinUsage(cacheCoins[o]) == 0
    {
      hide Totals.MapTotal;
      if coin.script.unspendable {
        return false;
      }
      if coin.script.zerocoinMint {
        return false;
      }
      var inserted := o !in cacheCoins;
      var prior := if inserted then CoinEntry(Spent, false, false) else cacheCoins[o];
      var markFresh := false;
      if !inserted {
        cachedCoinsUsage := cachedCoinsUsage - CoinUsage(prior);
      }
      if !possibleOverwrite {
        if prior.coin.Unspent? {
          return true;
        }
        markFresh := !prior.isDirty;
      }
      PutCoin(cacheCoins, o, CoinEntry(coin, true, prior.isFresh || markFresh));
      cacheCoins := cacheCoins[o := CoinEntry(coin, true, prior.isFresh || markFresh)];
      cachedCoinsUsage := cachedCoinsUsage + CoinUsage(cacheCoins[o]);
      thrown := false;
    }

    method SpendCoin(o: OutPoint) returns (moved: Coin)
      requires Valid()
      modifies repr
      ensures Valid()
      ensures Model() == CoinsRuns.Write(old(Model()), CoinsRuns.SpendCoin(o))
      ensures moved == (var r := V.GetCoin(old(Model()), o).1; if r.Some? then r.value else Spent)
    {
      hide Totals.MapTotal;
      var found := FetchCoin(o);
      if !found {
        return Spent;
      }
      moved := cacheCoins[o].coin;
      cachedCoinsUsage := cachedCoinsUsage - CoinUsage(cacheCoins[o]);
      if cacheCoins[o].isFresh {
        Totals.MapTotalRemove(cacheCoins, o, CoinUsage);
        cacheCoins := cacheCoins - {o};
      } else {
        PutCoin(cacheCoins, o, CoinEntry(Spent, true, false));
        cacheCoins := cacheCoins[o := CoinEntry(Spent, true, false)];
      }
    }

    method Uncache(o: OutPoint)
      requires Valid()
      modifies this
      ensures Valid() && Model() == V.Uncache(old(Model()), o)
      ensures var drop := o in old(cacheCoins) && !old(cacheCoins)[o].isDirty && !old(cacheCoins)[o].isFresh;
              cacheCoins == if drop then old(cacheCoins) - {o} else old(cacheCoins)
    {
      if o in cacheCoins && !cacheCoins[o].isDirty && !cacheCoins[o].isFresh {
        Totals.MapTotalRemove(cacheCoins, o, CoinUsage);
        cachedCoinsUsage := cachedCoinsUsage - CoinUsage(cacheCoins[o]);
        cacheCoins := cacheCoins - {o};
      }
    }

    method GetBestBlock() returns (hash: Hash)
      requires Valid()
      modifies repr
      ensures Valid()
      ensures (Model(), hash) == V.GetBestBlock(old(Model()))
      decreases repr
    {
      if hashBlock == NULL {
        if parent == null {
          hashBlock := disk.db.bestBlock;
        } else {
          var h := parent.GetBestBlock();
          hashBlock := h;
        }
      }
      hash := hashBlock;
    }

    method SetBestBlock(hash: Hash)
      requires Valid()
      modifies this`hashBlock
      ensures Valid() && Model() == CoinsRuns.Write(old(Model()), CoinsRuns.SetBestBlock(hash))
    {
      hashBlock := hash;
    }

    method GetBestAnchor() returns (hash: Hash)
      requires Valid()
      modifies repr
      ensures Valid()
      ensures (Model(), hash) == V.GetBestAnchor(old(Model()))
      decreases repr
    {
      if hashSaplingAnchor == NULL {
        if parent == null {
          hashSaplingAnchor := if disk.db.bestAnchor == NULL then EMPTY_TREE.root else disk.db.bestAnchor;
        } else {
          var h := parent.GetBestAnchor();
          hashSaplingAnchor := h;
        }
      }
      hash := hashSaplingAnchor;
    }

    method GetSaplingAnchorAt(rt: Hash) returns (tree: Option<Tree>)
      requires Valid()
      modifies repr
      ensures Valid()
      ensures (Model(), tree) == V.GetAnchor(old(Model()), rt)
      decreases repr
    {
      if rt in cacheSaplingAnchors {
        return if cacheSaplingAnchors[rt].entered then Some(cacheSaplingAnchors[rt].tree) else None;
      }
      if parent == null {
        tree := V.GetAnchor(Disk(disk.db), rt).1;
      } else {
        tree := parent.GetSaplingAnchorAt(rt);
      }
      if tree.None? {
        return;
      }
      PutAnchor(cacheSaplingAnchors, rt, AnchorEntry(true, tree.value, false));
      cacheSaplingAnchors := cacheSaplingAnchors[rt := AnchorEntry(true, tree.value, false)];
      cachedCoinsUsage := cachedCoinsUsage + tree.value.usage;
    }

    method GetNullifier(n: Hash) returns (entered: bool)
      requires Valid()
      modifies repr
      ensures Valid()
      ensures (Model(), entered) == V.GetNullifier(old(Model()), n)
      decreases repr
    {
      if n in cacheSaplingNullifiers {
        return cacheSaplingNullifiers[n].entered;
      }
      if parent == null {
        entered := n in disk.db.nullifiers;
      } else {
        entered := parent.GetNullifier(n);
      }
      cacheSaplingNullifiers := cacheSaplingNullifiers[n := NullifierEntry(entered, false)];
    }

    // The usage stays exact only because a root determines its tree: an entry found is overwritten uncounted.
    method PushAnchor(tree: Tree)
      requires Valid()
      requires tree.root in cacheSaplingAnchors ==> cacheSaplingAnchors[tree.root].tree == tree
      modifies repr
      ensures Valid()
      ensures Model() == CoinsRuns.Write(old(Model()), CoinsRuns.PushAnchor(tree))
    {
      hide Totals.MapTotal;
      var currentRoot := GetBestAnchor();
      if currentRoot != tree.root {
        var inserted := tree.root !in cacheSaplingAnchors;
        PutAnchor(cacheSaplingAnchors, tree.root, AnchorEntry(true, tree, true));
        cacheSaplingAnchors := cacheSaplingAnchors[tree.root := AnchorEntry(true, tree, true)];
        if inserted {
          cachedCoinsUsage := cachedCoinsUsage + tree.usage;
        }
        hashSaplingAnchor := tree.root;
      }
    }

    // The source asserts that the current anchor can be read.
    method PopAnchor(newrt: Hash)
      requires Valid()
      requires var (s, current) := V.GetBestAnchor(Model()); current != newrt ==> V.GetAnchor(s, current).1.Some?
      modifies repr
      ensures Valid()
      ensures Model() == CoinsRuns.Write(old(Model()), CoinsRuns.PopAnchor(newrt))
    {
      hide Totals.MapTotal;
      var currentRoot := GetBestAnchor();
      if currentRoot != newrt {
        var tree := GetSaplingAnchorAt(currentRoot);
        var entry := cacheSaplingAnchors[currentRoot].(entered := false, isDirty := true);
        PutAnchor(cacheSaplingAnchors, currentRoot, entry);
        cacheSaplingAnchors := cacheSaplingAnchors[currentRoot := entry];
        hashSaplingAnchor := newrt;
      }
    }

    method SetNullifiers(ns: seq<Hash>, spent: bool)
      requires Valid()
      modifies this`cacheSaplingNullifiers
      ensures Valid() && Model() == CoinsRuns.Write(old(Model()), CoinsRuns.SetNullifiers(ns, spent))
    {
      hide Totals.MapTotal, CoinsRuns.MarkNullifiers;
      cacheSaplingNullifiers := MarkAll(cacheSaplingNullifiers, ns, spent);
    }

    // Takes over one coin entry of a child.
    method TakeCoin(o: OutPoint, e: CoinEntry) returns (thrown: bool)
      requires UsageExact()
      modifies this`cacheCoins, this`cachedCoinsUsage
      ensures UsageExact()
      ensures thrown == (e.isDirty && e.isFresh && o in old(cacheCoins) && old(cacheCoins)[o].coin.Unspent?)
      ensures cacheCoins
              == if thrown then old(cacheCoins) else Put(old(cacheCoins), o, MergeCoin(e, Find(old(cacheCoins), o)))
    {
      thrown := false;
      if e.isDirty {
        if o !in cacheCoins {
          if !(e.isFresh && e.coin.Spent?) {
            PutCoin(cacheCoins, o, CoinEntry(e.coin, true, e.isFresh));
            cacheCoins := cacheCoins[o := CoinEntry(e.coin, true, e.isFresh)];
            cachedCoinsUsage := cachedCoinsUsage + CoinUsage(cacheCoins[o]);
          }
        } else {
          if e.isFresh && cacheCoins[o].coin.Unspent? {
            return true;
          }
          cachedCoinsUsage := cachedCoinsUsage - CoinUsage(cacheCoins[o]);
          if cacheCoins[o].isFresh && e.coin.Spent? {
            Totals.MapTotalRemove(cacheCoins, o, CoinUsage);
            cacheCoins := cacheCoins - {o};
          } else {
            PutCoin(cacheCoins, o, CoinEntry(e.coin, true, cacheCoins[o].isFresh));
            cacheCoins := cacheCoins[o := CoinEntry(e.coin, true, cacheCoins[o].isFresh)];
            cachedCoinsUsage := cachedCoinsUsage + CoinUsage(cacheCoins[o]);
          }
        }
      }
    }

    // The coin loop of BatchWrite: the entries come in no particular order, and each is erased once taken.
    method TakeCoins(coins: map<OutPoint, CoinEntry>) returns (thrown: bool)
      requires UsageExact()
      modifies this`cacheCoins, this`cachedCoinsUsage
      ensures UsageExact()
      ensures thrown <==> exists o | o in coins :: Misapplied(coins, old(cacheCoins), o)
      ensures !thrown ==> cacheCoins == MergeCoins(coins, old(cacheCoins))
    {
      var left := coins.Keys;
      TakeNone(coins, cacheCoins, MergeCoin);
      while left != {}
        invariant UsageExact()
        invariant left <= coins.Keys
        invariant cacheCoins == MergeCoins(coins - left, old(cacheCoins))
        invariant forall o | o in coins && o !in left :: !Misapplied(coins, old(cacheCoins), o)
      {
        var o :| o in left;
        TakeNext(coins, left, o, old(cacheCoins), MergeCoin);
        thrown := TakeCoin(o, coins[o]);
        assert thrown == Misapplied(coins, old(cacheCoins), o);
        if thrown {
          return;
        }
        left := left - {o};
      }
      TakenAll(coins);
      thrown := false;
    }

    method TakeAnchor(a: Hash, e: AnchorEntry)
      requires UsageExact()
      modifies this`cacheSaplingAnchors, this`cachedCoinsUsage
      ensures UsageExact()
      ensures cacheSaplingAnchors == Put(old(cacheSaplingAnchors), a, MergeAnchor(e, Find(old(cacheSaplingAnchors), a)))
    {
      if e.isDirty {
        if a !in cacheSaplingAnchors {
          PutAnchor(cacheSaplingAnchors, a, AnchorEntry(e.entered, e.tree, true));
          cacheSaplingAnchors := cacheSaplingAnchors[a := AnchorEntry(e.entered, e.tree, true)];
          cachedCoinsUsage := cachedCoinsUsage + e.tree.usage;
        } else if cacheSaplingAnchors[a].entered != e.entered {
          var entry := AnchorEntry(e.entered, cacheSaplingAnchors[a].tree, true);
          PutAnchor(cacheSaplingAnchors, a, entry);
          cacheSaplingAnchors := cacheSaplingAnchors[a := entry];
        }
      }
    }

    method TakeAnchors(anchors: map<Hash, AnchorEntry>)
      requires UsageExact()
      modifies this`cacheSaplingAnchors, this`cachedCoinsUsage
      ensures UsageExact()
      ensures cacheSaplingAnchors == MergeAnchors(anchors, old(cacheSaplingAnchors))
    {
      var left := anchors.Keys;
      TakeNone(anchors, cacheSaplingAnchors, MergeAnchor);
      while left != {}
        invariant UsageExact()
        invariant left <= anchors.Keys
        invariant cacheSaplingAnchors == MergeAnchors(anchors - left, old(cacheSaplingAnchors))
      {
        var a :| a in left;
        TakeNext(anchors, left, a, old(cacheSaplingAnchors), MergeAnchor);
        TakeAnchor(a, anchors[a]);
        left := left - {a};
      }
      TakenAll(anchors);
    }

    method TakeNullifiers(nullifiers: map<Hash, NullifierEntry>)
      modifies this`cacheSaplingNullifiers
      ensures cacheSaplingNullifiers == MergeNullifiers(nullifiers, old(cacheSaplingNullifiers))
    {
      var left := nullifiers.Keys;
      TakeNone(nullifiers, cacheSaplingNullifiers, MergeNullifier);
      while left != {}
        invariant left <= nullifiers.Keys
        invariant cacheSaplingNullifiers == MergeNullifiers(nullifiers - left, old(cacheSaplingNullifiers))
      {
        var n :| n in left;
        var e := nullifiers[n];
        TakeNext(nullifiers, left, n, old(cacheSaplingNullifiers), MergeNullifier);
        if e.isDirty && (n !in cacheSaplingNullifiers || cacheSaplingNullifiers[n].entered != e.entered) {
          cacheSaplingNullifiers := cacheSaplingNullifiers[n := NullifierEntry(e.entered, true)];
        }
        left := left - {n};
      }
      TakenAll(nullifiers);
    }

    method BatchWrite(l: Layer) returns (thrown: bool)
      requires Valid()
      modifies this
      ensures Valid()
      ensures thrown == Throws(l.coins, old(Model()))
      ensures !thrown ==> Model() == V.BatchWrite(l, old(Model()))
    {
      hide Totals.MapTotal, V.MergeCoins, V.MergeAnchors, V.MergeNullifiers, V.Misapplied;
      thrown := TakeCoins(l.coins);
      if thrown {
        return;
      }
      TakeAnchors(l.anchors);
      TakeNullifiers(l.nullifiers);
      hashSaplingAnchor := l.hashAnchor;
      hashBlock := l.hashBlock;
    }

    // The database below the last cache asserts that the block hash is set.
    method Flush() returns (thrown: bool)
      requires Valid()
      requires parent == null ==> hashBlock != NULL
      modifies repr
      ensures thrown == Throws(old(cacheCoins), old(Base()))
      ensures !thrown ==> Valid() && Model() == V.Flush(old(Model()))
      ensures !thrown ==> cacheCoins == map[] && cacheSaplingAnchors == map[] && cacheSaplingNullifiers == map[] &&
                          cachedCoinsUsage == 0
    {
      hide V.WriteCoins, V.WriteAnchors, V.WriteNullifiers, V.MergeCoins, V.MergeAnchors, V.MergeNullifiers,
           V.Misapplied;
      var l := Layer(cacheCoins, hashBlock, cacheSaplingAnchors, hashSaplingAnchor, cacheSaplingNullifiers);
      thrown := false;
      if parent == null {
        disk.db := V.BatchWrite(l, Disk(disk.db)).db;
      } else {
        thrown := parent.BatchWrite(l);
      }
      if thrown {
        return;
      }
      cacheCoins, cacheSaplingAnchors, cacheSaplingNullifiers, cachedCoinsUsage := map[], map[], map[], 0;
    }
  }

  // The loop of SetNullifiers, on the map it updates.
  method MarkAll(m: map<Hash, NullifierEntry>, ns: seq<Hash>, spent: bool) returns (marked: map<Hash, NullifierEntry>)
    ensures marked == CoinsRuns.MarkNullifiers(m, ns, spent)
  {
    marked := m;
    for i := 0 to |ns|
      invariant marked == CoinsRuns.MarkNullifiers(m, ns[..i], spent)
    {
      marked := marked[ns[i] := NullifierEntry(spent, true)];
      assert ns[..i + 1] == ns[..i] + [ns[i]];
    }
    assert ns[..|ns|] == ns;
  }

  // A coin of script size 3 added twice: the second call throws and leaves the count 3 too low.
  method DriftingCache() returns (cache: CoinsViewCache, thrown: bool)
    ensures thrown && cache.cachedCoinsUsage == 0 && !cache.UsageExact()
  {
    var disk := new CoinsDatabase(Database(map[], 0, map[], 0, {}));
    cache := new CoinsViewCache.OnDisk(disk);
    var o, coin := OutPoint(1, 0), Unspent(1, Script(3, false, false), 0, false, false);
    thrown := cache.AddCoin(o, coin, false);
    Totals.MapTotalPut(map[], o, cache.cacheCoins[o], CoinUsage);
    assert cache.cachedCoinsUsage == 3;
    thrown := cache.AddCoin(o, coin, false);
  }
}
