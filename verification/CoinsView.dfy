/**
 The value model of the layered coin view: a stack of caches over the coin
 database, the plain view each level stands for, and the reading, flushing and
 writing operations as functions on the stack.
 */
module CoinsView {
  import opened Options

  // A 256-bit hash. Zero is the null hash.
  type Hash = nat
  const NULL: Hash := 0

  datatype OutPoint = OutPoint(hash: Hash, n: nat)

  // What the cache asks of an output script: its heap size and its two kinds that are never stored.
  datatype Script = Script(usage: nat, unspendable: bool, zerocoinMint: bool)

  datatype Coin = Spent | Unspent(value: nat, script: Script, height: nat, coinBase: bool, coinStake: bool)

  datatype Tree = Tree(root: Hash, usage: nat)
  const EMPTY_TREE := Tree(1, 0)

  datatype CoinEntry = CoinEntry(coin: Coin, isDirty: bool, isFresh: bool)
  datatype AnchorEntry = AnchorEntry(entered: bool, tree: Tree, isDirty: bool)
  datatype NullifierEntry = NullifierEntry(entered: bool, isDirty: bool)

  datatype Layer = Layer(coins: map<OutPoint, CoinEntry>, hashBlock: Hash,
                         anchors: map<Hash, AnchorEntry>, hashAnchor: Hash,
                         nullifiers: map<Hash, NullifierEntry>)

  // The database keeps unspent coins only. A null best anchor means that none was written yet.
  datatype Database = Database(coins: map<OutPoint, Coin>, bestBlock: Hash,
                               anchors: map<Hash, Tree>, bestAnchor: Hash, nullifiers: set<Hash>)

  datatype Stack = Disk(db: Database) | Cache(layer: Layer, base: Stack)

  const EMPTY_LAYER := Layer(map[], NULL, map[], NULL, map[])

  // The state that one level of the stack stands for.
  datatype View = View(coins: map<OutPoint, Coin>, bestBlock: Hash,
                       anchors: map<Hash, Tree>, bestAnchor: Hash, nullifiers: set<Hash>)

  function ViewOf(s: Stack): View {
    match s
    case Disk(db) =>
      View(db.coins, db.bestBlock, db.anchors[EMPTY_TREE.root := EMPTY_TREE],
           if db.bestAnchor == NULL then EMPTY_TREE.root else db.bestAnchor, db.nullifiers)
    case Cache(l, b) => Overlay(l, ViewOf(b))
  }

  function Overlay(l: Layer, v: View): View {
    View(OverlayCoins(l.coins, v.coins),
         if l.hashBlock == NULL then v.bestBlock else l.hashBlock,
         OverlayAnchors(l.anchors, v.anchors),
         if l.hashAnchor == NULL then v.bestAnchor else l.hashAnchor,
         OverlayNullifiers(l.nullifiers, v.nullifiers))
  }

  function OverlayCoins(cached: map<OutPoint, CoinEntry>, base: map<OutPoint, Coin>): map<OutPoint, Coin> {
    map o | o in cached.Keys + base.Keys && (o in cached ==> cached[o].coin.Unspent?)
      :: if o in cached then cached[o].coin else base[o]
  }

  function OverlayAnchors(cached: map<Hash, AnchorEntry>, base: map<Hash, Tree>): map<Hash, Tree> {
    map a | a in cached.Keys + base.Keys && (a in cached ==> cached[a].entered)
      :: if a in cached then cached[a].tree else base[a]
  }

  function OverlayNullifiers(cached: map<Hash, NullifierEntry>, base: set<Hash>): set<Hash> {
    set n | n in cached.Keys + base && (n in cached ==> cached[n].entered)
  }

  function Lookup(coins: map<OutPoint, Coin>, o: OutPoint): Coin {
    if o in coins then coins[o] else Spent
  }

  function Depth(s: Stack): nat {
    if s.Disk? then 0 else 1 + Depth(s.base)
  }

  // The views of all levels, the top of the stack first.
  function Views(s: Stack): (vs: seq<View>)
    ensures |vs| == Depth(s) + 1
  {
    match s
    case Disk(_) => [ViewOf(s)]
    case Cache(_, b) => [ViewOf(s)] + Views(b)
  }

  /* ----- The invariant ----- */

  // FRESH: the base holds nothing unspent here. Not DIRTY: the entry agrees with the base.
  predicate CoinEntryOk(e: CoinEntry, base: Coin) {
    && (e.isFresh ==> base == Spent)
    && (!e.isDirty ==> e.coin == base)
  }

  predicate CoinsOk(cached: map<OutPoint, CoinEntry>, base: map<OutPoint, Coin>) {
    forall o | o in cached :: CoinEntryOk(cached[o], Lookup(base, o))
  }

  // The root determines the tree, and the empty tree is never hidden.
  ghost predicate AnchorEntryOk(e: AnchorEntry, a: Hash, inBase: bool, treeOf: Hash -> Tree) {
    && e.tree == treeOf(a)
    && (a == EMPTY_TREE.root ==> e.entered)
    && (!e.isDirty ==> (e.entered <==> inBase))
  }

  ghost predicate AnchorsOk(cached: map<Hash, AnchorEntry>, base: map<Hash, Tree>, treeOf: Hash -> Tree) {
    forall a | a in cached :: AnchorEntryOk(cached[a], a, a in base, treeOf)
  }

  predicate NullifiersOk(cached: map<Hash, NullifierEntry>, base: set<Hash>) {
    forall n | n in cached :: !cached[n].isDirty ==> (cached[n].entered <==> n in base)
  }

  ghost predicate LayerOk(l: Layer, v: View, treeOf: Hash -> Tree) {
    && CoinsOk(l.coins, v.coins)
    && AnchorsOk(l.anchors, v.anchors, treeOf)
    && NullifiersOk(l.nullifiers, v.nullifiers)
  }

  ghost predicate Sound(s: Stack, treeOf: Hash -> Tree) {
    match s
    case Disk(db) =>
      && treeOf(EMPTY_TREE.root) == EMPTY_TREE
      && (forall o | o in db.coins :: db.coins[o].Unspent?)
      && (forall a | a in db.anchors :: db.anchors[a] == treeOf(a))
    case Cache(l, b) => Sound(b, treeOf) && LayerOk(l, ViewOf(b), treeOf)
  }

  lemma {:induction false} SoundView(s: Stack, treeOf: Hash -> Tree)
    requires Sound(s, treeOf)
    ensures forall o | o in ViewOf(s).coins :: ViewOf(s).coins[o].Unspent?
    ensures forall a | a in ViewOf(s).anchors :: ViewOf(s).anchors[a] == treeOf(a)
    ensures EMPTY_TREE.root in ViewOf(s).anchors
  {
    match s
    case Disk(_) =>
    case Cache(l, b) => SoundView(b, treeOf);
  }

  /* ----- Reading: every level below may fill its cache ----- */

  function GetCoin(s: Stack, o: OutPoint): (Stack, Option<Coin>) {
    match s
    case Disk(db) => (s, if o in db.coins then Some(db.coins[o]) else None)
    case Cache(l, b) =>
      if o in l.coins then (s, Some(l.coins[o].coin))
      else
        var (b', r) := GetCoin(b, o);
        if r.None? then (Cache(l, b'), r)
        else (Cache(l.(coins := l.coins[o := CoinEntry(r.value, false, r.value.Spent?)]), b'), r)
  }

  function GetAnchor(s: Stack, a: Hash): (Stack, Option<Tree>) {
    match s
    case Disk(db) =>
      (s, if a == EMPTY_TREE.root then Some(EMPTY_TREE) else if a in db.anchors then Some(db.anchors[a]) else None)
    case Cache(l, b) =>
      if a in l.anchors then (s, if l.anchors[a].entered then Some(l.anchors[a].tree) else None)
      else
        var (b', r) := GetAnchor(b, a);
        if r.None? then (Cache(l, b'), r)
        else (Cache(l.(anchors := l.anchors[a := AnchorEntry(true, r.value, false)]), b'), r)
  }

  function GetNullifier(s: Stack, n: Hash): (Stack, bool) {
    match s
    case Disk(db) => (s, n in db.nullifiers)
    case Cache(l, b) =>
      if n in l.nullifiers then (s, l.nullifiers[n].entered)
      else
        var (b', r) := GetNullifier(b, n);
        (Cache(l.(nullifiers := l.nullifiers[n := NullifierEntry(r, false)]), b'), r)
  }

  function GetBestBlock(s: Stack): (Stack, Hash) {
    match s
    case Disk(db) => (s, db.bestBlock)
    case Cache(l, b) =>
      if l.hashBlock != NULL then (s, l.hashBlock)
      else var (b', h) := GetBestBlock(b); (Cache(l.(hashBlock := h), b'), h)
  }

  function GetBestAnchor(s: Stack): (Stack, Hash) {
    match s
    case Disk(db) => (s, if db.bestAnchor == NULL then EMPTY_TREE.root else db.bestAnchor)
    case Cache(l, b) =>
      if l.hashAnchor != NULL then (s, l.hashAnchor)
      else var (b', h) := GetBestAnchor(b); (Cache(l.(hashAnchor := h), b'), h)
  }

  // What a read may not do: change any view, lose a level or break the invariant.
  ghost predicate ReadOnly(s: Stack, s': Stack, treeOf: Hash -> Tree) {
    && Sound(s', treeOf)
    && Views(s') == Views(s)
    && s'.Disk? == s.Disk?
  }

  // A level is read only if its base is and its new layer stands for the same view.
  lemma ReadThrough(l: Layer, b: Stack, l': Layer, b': Stack, treeOf: Hash -> Tree)
    requires ReadOnly(b, b', treeOf)
    requires LayerOk(l', ViewOf(b), treeOf)
    requires Overlay(l', ViewOf(b)) == Overlay(l, ViewOf(b))
    ensures ReadOnly(Cache(l, b), Cache(l', b'), treeOf)
  {
    assert ViewOf(b') == Views(b')[0] == Views(b)[0] == ViewOf(b);
  }

  lemma FillCoin(cached: map<OutPoint, CoinEntry>, base: map<OutPoint, Coin>, o: OutPoint)
    requires CoinsOk(cached, base) && o !in cached
    requires forall p | p in base :: base[p].Unspent?
    ensures var cached' := cached[o := CoinEntry(Lookup(base, o), false, Lookup(base, o).Spent?)];
            CoinsOk(cached', base) && OverlayCoins(cached', base) == OverlayCoins(cached, base)
  {
    var cached' := cached[o := CoinEntry(Lookup(base, o), false, Lookup(base, o).Spent?)];
    assert OverlayCoins(cached', base) == OverlayCoins(cached, base);
  }

  lemma FillAnchor(cached: map<Hash, AnchorEntry>, base: map<Hash, Tree>, a: Hash, treeOf: Hash -> Tree)
    requires AnchorsOk(cached, base, treeOf) && a !in cached
    requires a in base && base[a] == treeOf(a)
    ensures var cached' := cached[a := AnchorEntry(true, base[a], false)];
            AnchorsOk(cached', base, treeOf) && OverlayAnchors(cached', base) == OverlayAnchors(cached, base)
  {
    var cached' := cached[a := AnchorEntry(true, base[a], false)];
    assert OverlayAnchors(cached', base) == OverlayAnchors(cached, base);
  }

  lemma FillNullifier(cached: map<Hash, NullifierEntry>, base: set<Hash>, n: Hash)
    requires NullifiersOk(cached, base) && n !in cached
    ensures var cached' := cached[n := NullifierEntry(n in base, false)];
            NullifiersOk(cached', base) && OverlayNullifiers(cached', base) == OverlayNullifiers(cached, base)
  {
    var cached' := cached[n := NullifierEntry(n in base, false)];
    assert OverlayNullifiers(cached', base) == OverlayNullifiers(cached, base);
  }

  lemma {:induction false} GetCoinReadsView(s: Stack, o: OutPoint, treeOf: Hash -> Tree)
    requires Sound(s, treeOf)
    ensures ReadOnly(s, GetCoin(s, o).0, treeOf)
    ensures var r := GetCoin(s, o).1;
            Lookup(ViewOf(s).coins, o) == if r.Some? then r.value else Spent
  {
    match s
    case Disk(_) =>
    case Cache(l, b) =>
      if o !in l.coins {
        GetCoinReadsView(b, o, treeOf);
        SoundView(b, treeOf);
        FillCoin(l.coins, ViewOf(b).coins, o);
        var s' := GetCoin(s, o).0;
        ReadThrough(l, b, s'.layer, s'.base, treeOf);
      }
  }

  lemma {:induction false} GetAnchorReadsView(s: Stack, a: Hash, treeOf: Hash -> Tree)
    requires Sound(s, treeOf)
    ensures ReadOnly(s, GetAnchor(s, a).0, treeOf)
    ensures GetAnchor(s, a).1 == if a in ViewOf(s).anchors then Some(ViewOf(s).anchors[a]) else None
  {
    match s
    case Disk(_) =>
    case Cache(l, b) =>
      if a !in l.anchors {
        GetAnchorReadsView(b, a, treeOf);
        SoundView(b, treeOf);
        if a in ViewOf(b).anchors { FillAnchor(l.anchors, ViewOf(b).anchors, a, treeOf); }
        var s' := GetAnchor(s, a).0;
        ReadThrough(l, b, s'.layer, s'.base, treeOf);
      }
  }

  lemma {:induction false} GetNullifierReadsView(s: Stack, n: Hash, treeOf: Hash -> Tree)
    requires Sound(s, treeOf)
    ensures ReadOnly(s, GetNullifier(s, n).0, treeOf)
    ensures GetNullifier(s, n).1 == (n in ViewOf(s).nullifiers)
  {
    match s
    case Disk(_) =>
    case Cache(l, b) =>
      if n !in l.nullifiers {
        GetNullifierReadsView(b, n, treeOf);
        FillNullifier(l.nullifiers, ViewOf(b).nullifiers, n);
        var s' := GetNullifier(s, n).0;
        ReadThrough(l, b, s'.layer, s'.base, treeOf);
      }
  }

  lemma {:induction false} GetBestBlockReadsView(s: Stack, treeOf: Hash -> Tree)
    requires Sound(s, treeOf)
    ensures ReadOnly(s, GetBestBlock(s).0, treeOf)
    ensures GetBestBlock(s).1 == ViewOf(s).bestBlock
  {
    match s
    case Disk(_) =>
    case Cache(l, b) =>
      if l.hashBlock == NULL {
        GetBestBlockReadsView(b, treeOf);
        assert ViewOf(GetBestBlock(b).0) == Views(GetBestBlock(b).0)[0] == ViewOf(b);
      }
  }

  lemma {:induction false} GetBestAnchorReadsView(s: Stack, treeOf: Hash -> Tree)
    requires Sound(s, treeOf)
    ensures ReadOnly(s, GetBestAnchor(s).0, treeOf)
    ensures GetBestAnchor(s).1 == ViewOf(s).bestAnchor
  {
    match s
    case Disk(_) =>
    case Cache(l, b) =>
      if l.hashAnchor == NULL {
        GetBestAnchorReadsView(b, treeOf);
        assert ViewOf(GetBestAnchor(b).0) == Views(GetBestAnchor(b).0)[0] == ViewOf(b);
      }
  }

  // Drops an unmodified entry.
  function Uncache(s: Stack, o: OutPoint): Stack {
    if s.Cache? && o in s.layer.coins && !s.layer.coins[o].isDirty && !s.layer.coins[o].isFresh
    then Cache(s.layer.(coins := s.layer.coins - {o}), s.base)
    else s
  }

  lemma DropClean(cached: map<OutPoint, CoinEntry>, base: map<OutPoint, Coin>, o: OutPoint)
    requires CoinsOk(cached, base) && o in cached && !cached[o].isDirty
    requires forall p | p in base :: base[p].Unspent?
    ensures CoinsOk(cached - {o}, base)
    ensures OverlayCoins(cached - {o}, base) == OverlayCoins(cached, base)
  {
    assert CoinEntryOk(cached[o], Lookup(base, o));
    forall p ensures Find(OverlayCoins(cached - {o}, base), p) == Find(OverlayCoins(cached, base), p) {}
    SameFinds(OverlayCoins(cached - {o}, base), OverlayCoins(cached, base));
  }

  lemma UncacheKeepsView(s: Stack, o: OutPoint, treeOf: Hash -> Tree)
    requires Sound(s, treeOf)
    ensures ReadOnly(s, Uncache(s, o), treeOf)
  {
    if s != Uncache(s, o) {
      SoundView(s.base, treeOf);
      DropClean(s.layer.coins, ViewOf(s.base).coins, o);
      ReadThrough(s.layer, s.base, Uncache(s, o).layer, s.base, treeOf);
    }
  }

  /* ----- Flushing ----- */

  // The entry the parent is left with after taking a child's entry.
  function MergeCoin(child: CoinEntry, parent: Option<CoinEntry>): Option<CoinEntry> {
    if !child.isDirty then parent
    else match parent
      case None =>
        if child.isFresh && child.coin.Spent? then None else Some(CoinEntry(child.coin, true, child.isFresh))
      case Some(p) =>
        if p.isFresh && child.coin.Spent? then None else Some(CoinEntry(child.coin, true, p.isFresh))
  }

  function Find<K, V>(m: map<K, V>, k: K): Option<V> {
    if k in m then Some(m[k]) else None
  }

  function Put<K, V>(m: map<K, V>, k: K, v: Option<V>): map<K, V> {
    if v.Some? then m[k := v.value] else m - {k}
  }

  // Takes every entry of the child over into the parent.
  function Merge<K, V>(child: map<K, V>, parent: map<K, V>, take: (V, Option<V>) -> Option<V>): map<K, V> {
    map k | k in child.Keys + parent.Keys && Merged(child, parent, take, k).Some?
      :: Merged(child, parent, take, k).value
  }

  function Merged<K, V>(child: map<K, V>, parent: map<K, V>, take: (V, Option<V>) -> Option<V>, k: K): Option<V> {
    if k in child then take(child[k], Find(parent, k)) else Find(parent, k)
  }

  // Taking the entries over one at a time, in any order, amounts to the same merge.
  lemma TakeNext<K, V>(child: map<K, V>, left: set<K>, k: K, parent: map<K, V>, take: (V, Option<V>) -> Option<V>)
    requires k in left && left <= child.Keys
    ensures var mid := Merge(child - left, parent, take);
            && Find(mid, k) == Find(parent, k)
            && Merge(child - (left - {k}), parent, take) == Put(mid, k, take(child[k], Find(parent, k)))
  {
    var taken, mid := child - left, Merge(child - left, parent, take);
    var taken', mid' := child - (left - {k}), Merge(child - (left - {k}), parent, take);
    assert Find(mid, k) == Merged(taken, parent, take, k);
    forall j ensures Find(mid', j) == Find(Put(mid, k, take(child[k], Find(parent, k))), j) {
      assert Find(mid, j) == Merged(taken, parent, take, j);
      assert Find(mid', j) == Merged(taken', parent, take, j);
    }
    SameFinds(mid', Put(mid, k, take(child[k], Find(parent, k))));
  }

  lemma TakeNone<K, V>(child: map<K, V>, parent: map<K, V>, take: (V, Option<V>) -> Option<V>)
    ensures Merge(child - child.Keys, parent, take) == parent
  {
  }

  lemma TakenAll<K, V>(child: map<K, V>)
    ensures child - {} == child
  {
  }

  function MergeCoins(child: map<OutPoint, CoinEntry>, parent: map<OutPoint, CoinEntry>): map<OutPoint, CoinEntry> {
    Merge(child, parent, MergeCoin)
  }

  function MergeAnchor(child: AnchorEntry, parent: Option<AnchorEntry>): Option<AnchorEntry> {
    if !child.isDirty then parent
    else match parent
      case None => Some(AnchorEntry(child.entered, child.tree, true))
      case Some(p) => Some(if p.entered == child.entered then p else AnchorEntry(child.entered, p.tree, true))
  }

  function MergeAnchors(child: map<Hash, AnchorEntry>, parent: map<Hash, AnchorEntry>): map<Hash, AnchorEntry> {
    Merge(child, parent, MergeAnchor)
  }

  function MergeNullifier(child: NullifierEntry, parent: Option<NullifierEntry>): Option<NullifierEntry> {
    if !child.isDirty then parent
    else match parent
      case None => Some(NullifierEntry(child.entered, true))
      case Some(p) => Some(if p.entered == child.entered then p else NullifierEntry(child.entered, true))
  }

  function MergeNullifiers(child: map<Hash, NullifierEntry>, parent: map<Hash, NullifierEntry>)
    : map<Hash, NullifierEntry>
  {
    Merge(child, parent, MergeNullifier)
  }

  // The entry that makes BatchWrite throw: FRESH in the child over an unspent coin of the parent.
  predicate Misapplied(child: map<OutPoint, CoinEntry>, parent: map<OutPoint, CoinEntry>, o: OutPoint) {
    && o in child && child[o].isDirty && child[o].isFresh
    && o in parent && parent[o].coin.Unspent?
  }

  predicate Throws(child: map<OutPoint, CoinEntry>, base: Stack) {
    base.Cache? && exists o | o in child :: Misapplied(child, base.layer.coins, o)
  }

  function WriteCoins(cached: map<OutPoint, CoinEntry>, disk: map<OutPoint, Coin>): map<OutPoint, Coin> {
    map o | o in cached.Keys + disk.Keys
            && if o in cached && cached[o].isDirty then cached[o].coin.Unspent? else o in disk
      :: if o in cached && cached[o].isDirty then cached[o].coin else disk[o]
  }

  // The empty tree is never stored: the database knows it anyway.
  function WriteAnchors(cached: map<Hash, AnchorEntry>, disk: map<Hash, Tree>): map<Hash, Tree> {
    map a | a in cached.Keys + disk.Keys
            && if a in cached && cached[a].isDirty && (cached[a].entered ==> a != EMPTY_TREE.root)
               then cached[a].entered else a in disk
      :: if a in cached && cached[a].isDirty && a != EMPTY_TREE.root then cached[a].tree else disk[a]
  }

  function WriteNullifiers(cached: map<Hash, NullifierEntry>, disk: set<Hash>): set<Hash> {
    set n | n in cached.Keys + disk && if n in cached && cached[n].isDirty then cached[n].entered else n in disk
  }

  // BatchWrite of the layer's maps and raw hashes into the level below.
  function BatchWrite(l: Layer, base: Stack): Stack {
    match base
    case Disk(db) =>
      Disk(Database(WriteCoins(l.coins, db.coins), l.hashBlock,
                    WriteAnchors(l.anchors, db.anchors), if l.hashAnchor == NULL then db.bestAnchor else l.hashAnchor,
                    WriteNullifiers(l.nullifiers, db.nullifiers)))
    case Cache(p, b) =>
      Cache(Layer(MergeCoins(l.coins, p.coins), l.hashBlock,
                  MergeAnchors(l.anchors, p.anchors), l.hashAnchor,
                  MergeNullifiers(l.nullifiers, p.nullifiers)), b)
  }

  // The cache keeps its two hashes and drops everything else.
  function Flush(s: Stack): Stack {
    if s.Disk? then s
    else Cache(EMPTY_LAYER.(hashBlock := s.layer.hashBlock, hashAnchor := s.layer.hashAnchor),
        BatchWrite(s.layer, s.base))
  }

  // BatchWrite copies the two hashes raw. One that was not loaded makes a parent cache fall back to its own base,
  // which is harmless only when the parent had no other. The database keeps its anchor.
  predicate KeepsHashes(l: Layer, base: Stack) {
    base.Cache? ==>
      && (l.hashBlock != NULL || ViewOf(base).bestBlock == ViewOf(base.base).bestBlock)
      && (l.hashAnchor != NULL || ViewOf(base).bestAnchor == ViewOf(base.base).bestAnchor)
  }

  // The database asserts that the block hash is set.
  predicate MayFlush(s: Stack) {
    s.Cache? && (s.base.Disk? ==> s.layer.hashBlock != NULL) && KeepsHashes(s.layer, s.base)
  }

  lemma FlushNeverThrows(s: Stack, treeOf: Hash -> Tree)
    requires Sound(s, treeOf) && s.Cache?
    ensures !Throws(s.layer.coins, s.base)
  {
    if o :| o in s.layer.coins && s.base.Cache? && Misapplied(s.layer.coins, s.base.layer.coins, o) {
      assert CoinEntryOk(s.layer.coins[o], Lookup(ViewOf(s.base).coins, o));
    }
  }

  lemma MergeCoinsView(child: map<OutPoint, CoinEntry>, parent: map<OutPoint, CoinEntry>, base: map<OutPoint, Coin>)
    requires CoinsOk(parent, base)
    requires CoinsOk(child, OverlayCoins(parent, base))
    requires forall o | o in base :: base[o].Unspent?
    ensures CoinsOk(MergeCoins(child, parent), base)
    ensures OverlayCoins(MergeCoins(child, parent), base) == OverlayCoins(child, OverlayCoins(parent, base))
  {
    var m, mid := MergeCoins(child, parent), OverlayCoins(parent, base);
    forall o | o in m ensures CoinEntryOk(m[o], Lookup(base, o)) {
      if o in parent { assert CoinEntryOk(parent[o], Lookup(base, o)); }
      if o in child { assert CoinEntryOk(child[o], Lookup(mid, o)); }
    }
    forall o
      ensures Find(OverlayCoins(m, base), o) == Find(OverlayCoins(child, mid), o)
    {
      if o in parent { assert CoinEntryOk(parent[o], Lookup(base, o)); }
      if o in child { assert CoinEntryOk(child[o], Lookup(mid, o)); }
      assert o in m <==> Merged(child, parent, MergeCoin, o).Some?;
    }
    SameFinds(OverlayCoins(m, base), OverlayCoins(child, mid));
  }

  lemma MergeAnchorsView(child: map<Hash, AnchorEntry>, parent: map<Hash, AnchorEntry>, base: map<Hash, Tree>,
      treeOf: Hash -> Tree)
    requires AnchorsOk(parent, base, treeOf)
    requires AnchorsOk(child, OverlayAnchors(parent, base), treeOf)
    requires forall a | a in base :: base[a] == treeOf(a)
    ensures AnchorsOk(MergeAnchors(child, parent), base, treeOf)
    ensures OverlayAnchors(MergeAnchors(child, parent), base) == OverlayAnchors(child, OverlayAnchors(parent, base))
  {
    var m, mid := MergeAnchors(child, parent), OverlayAnchors(parent, base);
    forall a | a in m ensures AnchorEntryOk(m[a], a, a in base, treeOf) {
      MergeAnchorAt(child, parent, base, a, treeOf);
    }
    forall a
      ensures Find(OverlayAnchors(m, base), a) == Find(OverlayAnchors(child, mid), a)
    {
      MergeAnchorAt(child, parent, base, a, treeOf);
    }
    SameFinds(OverlayAnchors(m, base), OverlayAnchors(child, mid));
  }

  lemma MergeAnchorAt(child: map<Hash, AnchorEntry>, parent: map<Hash, AnchorEntry>, base: map<Hash, Tree>, a: Hash,
      treeOf: Hash -> Tree)
    requires AnchorsOk(parent, base, treeOf)
    requires AnchorsOk(child, OverlayAnchors(parent, base), treeOf)
    requires a in base ==> base[a] == treeOf(a)
    ensures var m := MergeAnchors(child, parent);
            && (a in m ==> AnchorEntryOk(m[a], a, a in base, treeOf))
            && Find(OverlayAnchors(m, base), a) == Find(OverlayAnchors(child, OverlayAnchors(parent, base)), a)
  {
    var m, mid := MergeAnchors(child, parent), OverlayAnchors(parent, base);
    if a in parent { assert AnchorEntryOk(parent[a], a, a in base, treeOf); }
    if a in child { assert AnchorEntryOk(child[a], a, a in mid, treeOf); }
    assert a in m <==> Merged(child, parent, MergeAnchor, a).Some?;
  }

  lemma SameFinds<K, V>(a: map<K, V>, b: map<K, V>)
    requires forall k :: Find(a, k) == Find(b, k)
    ensures a == b
  {
    forall k ensures k in a <==> k in b {
      assert Find(a, k) == Find(b, k);
    }
    forall k | k in a ensures a[k] == b[k] {
      assert Find(a, k) == Find(b, k);
    }
  }

  lemma MergeNullifiersView(child: map<Hash, NullifierEntry>, parent: map<Hash, NullifierEntry>, base: set<Hash>)
    requires NullifiersOk(parent, base)
    requires NullifiersOk(child, OverlayNullifiers(parent, base))
    ensures NullifiersOk(MergeNullifiers(child, parent), base)
    ensures OverlayNullifiers(MergeNullifiers(child, parent), base)
            == OverlayNullifiers(child, OverlayNullifiers(parent, base))
  {
  }

  // A flush makes the base's view equal to the cache's exactly when no hash is lost.
  lemma BatchWriteTakesViewIff(l: Layer, b: Stack, treeOf: Hash -> Tree)
    requires Sound(Cache(l, b), treeOf) && (b.Disk? ==> l.hashBlock != NULL)
    ensures Sound(BatchWrite(l, b), treeOf)
    ensures ViewOf(BatchWrite(l, b)) == ViewOf(Cache(l, b)) <==> KeepsHashes(l, b)
  {
    match b
    case Disk(db) => WriteToDisk(l, db, treeOf);
    case Cache(p, g) =>
      SoundView(g, treeOf);
      MergeCoinsView(l.coins, p.coins, ViewOf(g).coins);
      MergeAnchorsView(l.anchors, p.anchors, ViewOf(g).anchors, treeOf);
      MergeNullifiersView(l.nullifiers, p.nullifiers, ViewOf(g).nullifiers);
  }

  lemma WriteCoinsView(cached: map<OutPoint, CoinEntry>, disk: map<OutPoint, Coin>)
    requires CoinsOk(cached, disk)
    requires forall o | o in disk :: disk[o].Unspent?
    ensures WriteCoins(cached, disk) == OverlayCoins(cached, disk)
  {
    forall o ensures Find(WriteCoins(cached, disk), o) == Find(OverlayCoins(cached, disk), o) {
      if o in cached { assert CoinEntryOk(cached[o], Lookup(disk, o)); }
    }
    SameFinds(WriteCoins(cached, disk), OverlayCoins(cached, disk));
  }

  lemma WriteAnchorsView(cached: map<Hash, AnchorEntry>, disk: map<Hash, Tree>, treeOf: Hash -> Tree)
    requires AnchorsOk(cached, disk[EMPTY_TREE.root := EMPTY_TREE], treeOf)
    requires treeOf(EMPTY_TREE.root) == EMPTY_TREE
    requires forall a | a in disk :: disk[a] == treeOf(a)
    ensures forall a | a in WriteAnchors(cached, disk) :: WriteAnchors(cached, disk)[a] == treeOf(a)
    ensures WriteAnchors(cached, disk)[EMPTY_TREE.root := EMPTY_TREE]
         == OverlayAnchors(cached, disk[EMPTY_TREE.root := EMPTY_TREE])
  {
    var seen, written := disk[EMPTY_TREE.root := EMPTY_TREE], WriteAnchors(cached, disk);
    forall a: Hash ensures Find(written[EMPTY_TREE.root := EMPTY_TREE], a) == Find(OverlayAnchors(cached, seen), a) {
      if a in cached { assert AnchorEntryOk(cached[a], a, a in seen, treeOf); }
    }
    SameFinds(written[EMPTY_TREE.root := EMPTY_TREE], OverlayAnchors(cached, seen));
    forall a | a in written ensures written[a] == treeOf(a) {
      if a in cached { assert AnchorEntryOk(cached[a], a, a in seen, treeOf); }
    }
  }

  lemma WriteToDisk(l: Layer, db: Database, treeOf: Hash -> Tree)
    requires Sound(Cache(l, Disk(db)), treeOf)
    requires l.hashBlock != NULL
    ensures Sound(BatchWrite(l, Disk(db)), treeOf)
    ensures ViewOf(BatchWrite(l, Disk(db))) == Overlay(l, ViewOf(Disk(db)))
  {
    WriteCoinsView(l.coins, db.coins);
    WriteAnchorsView(l.anchors, db.anchors, treeOf);
    assert WriteNullifiers(l.nullifiers, db.nullifiers) == OverlayNullifiers(l.nullifiers, db.nullifiers);
  }
}
