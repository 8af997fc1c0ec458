/**
 Writing operations on the coin stack, and runs of every operation at every level.
 The main results: a run acts on each level's view as the same run acts on plain
 maps (RunRefines), and undoing connected blocks restores the Sapling state
 (UndoRestoresSapling), whatever reads, uncachings and flushes are interleaved.
 */
module CoinsRuns {
  import opened Options
  import opened CoinsView

  datatype WriteOp =
    | AddCoin(o: OutPoint, coin: Coin, possibleOverwrite: bool)
    | SpendCoin(o: OutPoint)
    | SetBestBlock(hash: Hash)
    | PushAnchor(tree: Tree)
    | PopAnchor(newrt: Hash)
    | SetNullifiers(nullifiers: seq<Hash>, spent: bool)

  /* ----- Writes on the top cache ----- */

  predicate Stored(coin: Coin) {
    coin.Unspent? && !coin.script.unspendable && !coin.script.zerocoinMint
  }

  // "Adding new coin that replaces non-pruned entry"
  predicate AddThrows(l: Layer, o: OutPoint, coin: Coin, possibleOverwrite: bool) {
    Stored(coin) && !possibleOverwrite && o in l.coins && l.coins[o].coin.Unspent?
  }

  function AddEntry(l: Layer, o: OutPoint, coin: Coin, possibleOverwrite: bool): Layer {
    if !Stored(coin) then l
    else
      var prior := if o in l.coins then l.coins[o] else CoinEntry(Spent, false, false);
      var markFresh := !possibleOverwrite && !prior.isDirty;
      l.(coins := l.coins[o := CoinEntry(coin, true, prior.isFresh || markFresh)])
  }

  function SpendEntry(l: Layer, o: OutPoint): Layer
    requires o in l.coins
  {
    if l.coins[o].isFresh then l.(coins := l.coins - {o})
    else l.(coins := l.coins[o := CoinEntry(Spent, true, false)])
  }

  function MarkNullifiers(m: map<Hash, NullifierEntry>, ns: seq<Hash>, spent: bool): map<Hash, NullifierEntry> {
    if ns == [] then m
    else MarkNullifiers(m, ns[..|ns| - 1], spent)[ns[|ns| - 1] := NullifierEntry(spent, true)]
  }

  function Write(s: Stack, w: WriteOp): (s': Stack)
    requires s.Cache?
    ensures s'.Cache? && (w.AddCoin? || w.SetBestBlock? || w.SetNullifiers? ==> s'.base == s.base)
  {
    match w
    case AddCoin(o, coin, possibleOverwrite) => Cache(AddEntry(s.layer, o, coin, possibleOverwrite), s.base)
    case SpendCoin(o) =>
      var s1 := GetCoin(s, o).0;
      if o in s1.layer.coins then Cache(SpendEntry(s1.layer, o), s1.base) else s1
    case SetBestBlock(h) => Cache(s.layer.(hashBlock := h), s.base)
    case PushAnchor(t) =>
      var (s1, current) := GetBestAnchor(s);
      if current == t.root then s1
      else Cache(s1.layer.(anchors := s1.layer.anchors[t.root := AnchorEntry(true, t, true)], hashAnchor := t.root),
          s1.base)
    case PopAnchor(newrt) =>
      var (s1, current) := GetBestAnchor(s);
      if current == newrt then s1
      else
        var (s2, tree) := GetAnchor(s1, current);
        var kept := if tree.Some? then tree.value else EMPTY_TREE;
        Cache(s2.layer.(anchors := s2.layer.anchors[current := AnchorEntry(false, kept, true)], hashAnchor := newrt),
            s2.base)
    case SetNullifiers(ns, spent) =>
      Cache(s.layer.(nullifiers := MarkNullifiers(s.layer.nullifiers, ns, spent)), s.base)
  }

  /* ----- The same writes on a plain view ----- */

  function ViewWrite(v: View, w: WriteOp): View {
    match w
    case AddCoin(o, coin, _) => if Stored(coin) then v.(coins := v.coins[o := coin]) else v
    case SpendCoin(o) => v.(coins := v.coins - {o})
    case SetBestBlock(h) => v.(bestBlock := h)
    case PushAnchor(t) =>
      if v.bestAnchor == t.root then v else v.(anchors := v.anchors[t.root := t], bestAnchor := t.root)
    case PopAnchor(newrt) =>
      if v.bestAnchor == newrt then v else v.(anchors := v.anchors - {v.bestAnchor}, bestAnchor := newrt)
    case SetNullifiers(ns, spent) =>
      var named := set n | n in ns;
      v.(nullifiers := if spent then v.nullifiers + named else v.nullifiers - named)
  }

  // What the callers owe: all of it can be read off the plain view.
  ghost predicate MayWrite(v: View, w: WriteOp, treeOf: Hash -> Tree) {
    match w
    case AddCoin(o, coin, possibleOverwrite) =>
      coin.Unspent? && (Stored(coin) && !possibleOverwrite ==> o !in v.coins)
    case SpendCoin(_) => true
    case SetBestBlock(h) => h != NULL
    case PushAnchor(t) => t.root != NULL && treeOf(t.root) == t
    case PopAnchor(newrt) => MayPop(v, newrt) && (v.bestAnchor != newrt ==> v.bestAnchor != EMPTY_TREE.root)
    case SetNullifiers(_, _) => true
  }

  // The source asserts that the current anchor can be read.
  predicate MayPop(v: View, newrt: Hash) {
    newrt != NULL && (v.bestAnchor != newrt ==> v.bestAnchor in v.anchors)
  }

  lemma PutUnspent(cached: map<OutPoint, CoinEntry>, base: map<OutPoint, Coin>, o: OutPoint, e: CoinEntry)
    requires CoinsOk(cached, base) && e.coin.Unspent?
    ensures CoinsOk(cached[o := e], base) <==> CoinEntryOk(e, Lookup(base, o))
    ensures OverlayCoins(cached[o := e], base) == OverlayCoins(cached, base)[o := e.coin]
  {
    var cached' := cached[o := e];
    if CoinsOk(cached', base) { assert CoinEntryOk(cached'[o], Lookup(base, o)); }
    forall p ensures Find(OverlayCoins(cached', base), p) == Find(OverlayCoins(cached, base)[o := e.coin], p) {}
    SameFinds(OverlayCoins(cached', base), OverlayCoins(cached, base)[o := e.coin]);
  }

  // AddCoin without possible_overwrite is safe exactly when the view holds no unspent coin there.
  lemma AddCoinSafeIff(s: Stack, o: OutPoint, coin: Coin, treeOf: Hash -> Tree)
    requires Sound(s, treeOf) && s.Cache? && Stored(coin)
    ensures !AddThrows(s.layer, o, coin, false) && Sound(Write(s, AddCoin(o, coin, false)), treeOf)
       <==> o !in ViewOf(s).coins
  {
    var l, base := s.layer, ViewOf(s.base).coins;
    SoundView(s.base, treeOf);
    PutUnspent(l.coins, base, o, AddEntry(l, o, coin, false).coins[o]);
    if o in l.coins { assert CoinEntryOk(l.coins[o], Lookup(base, o)); }
  }

  lemma AddCoinView(s: Stack, o: OutPoint, coin: Coin, possibleOverwrite: bool, treeOf: Hash -> Tree)
    requires Sound(s, treeOf) && s.Cache?
    requires MayWrite(ViewOf(s), AddCoin(o, coin, possibleOverwrite), treeOf)
    ensures Sound(Write(s, AddCoin(o, coin, possibleOverwrite)), treeOf)
    ensures ViewOf(Write(s, AddCoin(o, coin, possibleOverwrite)))
            == ViewWrite(ViewOf(s), AddCoin(o, coin, possibleOverwrite))
    ensures !AddThrows(s.layer, o, coin, possibleOverwrite)
  {
    if Stored(coin) {
      var l, base := s.layer, ViewOf(s.base).coins;
      PutUnspent(l.coins, base, o, AddEntry(l, o, coin, possibleOverwrite).coins[o]);
      if o in l.coins { assert CoinEntryOk(l.coins[o], Lookup(base, o)); }
      if !possibleOverwrite { AddCoinSafeIff(s, o, coin, treeOf); }
    }
  }

  // What the source keeps out: outputs that cannot be spent, and zerocoin mints.
  lemma AddCoinKeepsOut(s: Stack, o: OutPoint, coin: Coin, possibleOverwrite: bool, treeOf: Hash -> Tree)
    requires Sound(s, treeOf) && s.Cache? && coin.Unspent?
    ensures var s' := Write(s, AddCoin(o, coin, possibleOverwrite)); var v := ViewOf(s);
            if coin.script.unspendable || coin.script.zerocoinMint then
              s' == s && Views(s') == Views(s) && !AddThrows(s.layer, o, coin, possibleOverwrite)
            else possibleOverwrite || o !in v.coins ==>
              && !AddThrows(s.layer, o, coin, possibleOverwrite) && Sound(s', treeOf)
              && Views(s') == [v.(coins := v.coins[o := coin])] + Views(s)[1..]
              && o in ViewOf(s').coins && ViewOf(s').coins[o] == coin
  {
    hide Sound, LayerOk, Overlay;
    if coin.script.unspendable || coin.script.zerocoinMint || possibleOverwrite || o !in ViewOf(s).coins {
      AddCoinView(s, o, coin, possibleOverwrite, treeOf);
    }
  }

  // Replacing the layer of a stack that has just been read.
  lemma WriteThrough(s: Stack, s1: Stack, l': Layer, treeOf: Hash -> Tree)
    requires s.Cache? && s1.Cache? && ReadOnly(s, s1, treeOf)
    requires LayerOk(l', ViewOf(s1.base), treeOf)
    ensures Sound(Cache(l', s1.base), treeOf)
    ensures ViewOf(Cache(l', s1.base)) == Overlay(l', ViewOf(s1.base))
    ensures Views(Cache(l', s1.base))[1..] == Views(s)[1..]
    ensures ViewOf(s) == Overlay(s1.layer, ViewOf(s1.base))
    ensures LayerOk(s1.layer, ViewOf(s1.base), treeOf)
  {
    assert Views(s)[0] == ViewOf(s) && Views(s1)[0] == ViewOf(s1);
    assert Views(s)[1..] == Views(s.base) && Views(s1)[1..] == Views(s1.base);
  }

  lemma DropFresh(cached: map<OutPoint, CoinEntry>, base: map<OutPoint, Coin>, o: OutPoint)
    requires CoinsOk(cached, base) && o in cached && cached[o].isFresh
    requires forall p | p in base :: base[p].Unspent?
    ensures CoinsOk(cached - {o}, base)
    ensures OverlayCoins(cached - {o}, base) == OverlayCoins(cached, base) - {o}
  {
    assert CoinEntryOk(cached[o], Lookup(base, o));
    forall p ensures Find(OverlayCoins(cached - {o}, base), p) == Find(OverlayCoins(cached, base) - {o}, p) {}
    SameFinds(OverlayCoins(cached - {o}, base), OverlayCoins(cached, base) - {o});
  }

  lemma MarkSpent(cached: map<OutPoint, CoinEntry>, base: map<OutPoint, Coin>, o: OutPoint)
    requires CoinsOk(cached, base)
    ensures CoinsOk(cached[o := CoinEntry(Spent, true, false)], base)
    ensures OverlayCoins(cached[o := CoinEntry(Spent, true, false)], base) == OverlayCoins(cached, base) - {o}
  {
    var cached' := cached[o := CoinEntry(Spent, true, false)];
    assert OverlayCoins(cached', base) == OverlayCoins(cached, base) - {o};
  }

  lemma SpendCached(l: Layer, v: View, o: OutPoint, treeOf: Hash -> Tree)
    requires LayerOk(l, v, treeOf) && o in l.coins
    requires forall p | p in v.coins :: v.coins[p].Unspent?
    ensures LayerOk(SpendEntry(l, o), v, treeOf)
    ensures Overlay(SpendEntry(l, o), v) == ViewWrite(Overlay(l, v), SpendCoin(o))
  {
    if l.coins[o].isFresh { DropFresh(l.coins, v.coins, o); } else { MarkSpent(l.coins, v.coins, o); }
  }

  lemma NothingToSpend(s: Stack, o: OutPoint)
    requires o !in ViewOf(s).coins
    ensures ViewWrite(ViewOf(s), SpendCoin(o)) == ViewOf(s)
  {
    assert ViewOf(s).coins - {o} == ViewOf(s).coins;
  }

  lemma SpendCoinView(s: Stack, o: OutPoint, treeOf: Hash -> Tree)
    requires Sound(s, treeOf) && s.Cache?
    ensures Sound(Write(s, SpendCoin(o)), treeOf)
    ensures ViewOf(Write(s, SpendCoin(o))) == ViewWrite(ViewOf(s), SpendCoin(o))
    ensures Views(Write(s, SpendCoin(o)))[1..] == Views(s)[1..]
  {
    hide LayerOk, Overlay;
    GetCoinReadsView(s, o, treeOf);
    var s1 := GetCoin(s, o).0;
    if o in s1.layer.coins {
      SoundView(s1.base, treeOf);
      SpendCached(s1.layer, ViewOf(s1.base), o, treeOf);
      WriteThrough(s, s1, SpendEntry(s1.layer, o), treeOf);
    } else {
      WriteThrough(s, s1, s1.layer, treeOf);
      assert o !in ViewOf(s).coins by { SoundView(s, treeOf); }
      NothingToSpend(s, o);
    }
  }

  // A coin added where the cache has nothing, and spent again before any flush, leaves no trace at all.
  lemma AddThenSpend(s: Stack, o: OutPoint, coin: Coin)
    requires s.Cache? && coin.Unspent? && o !in s.layer.coins
    requires !coin.script.unspendable && !coin.script.zerocoinMint
    ensures Write(Write(s, AddCoin(o, coin, false)), SpendCoin(o)) == s
  {
    assert s.layer.coins[o := CoinEntry(coin, true, true)] - {o} == s.layer.coins;
  }

  lemma EnterAnchor(l: Layer, v: View, t: Tree, treeOf: Hash -> Tree)
    requires LayerOk(l, v, treeOf) && t == treeOf(t.root) && t.root != NULL
    ensures var l' := l.(anchors := l.anchors[t.root := AnchorEntry(true, t, true)], hashAnchor := t.root);
            && LayerOk(l', v, treeOf)
            && Overlay(l', v) == Overlay(l, v).(anchors := Overlay(l, v).anchors[t.root := t], bestAnchor := t.root)
  {
    var cached' := l.anchors[t.root := AnchorEntry(true, t, true)];
    assert OverlayAnchors(cached', v.anchors) == OverlayAnchors(l.anchors, v.anchors)[t.root := t];
  }

  lemma HideAnchor(l: Layer, v: View, a: Hash, newrt: Hash, treeOf: Hash -> Tree)
    requires LayerOk(l, v, treeOf) && newrt != NULL
    ensures var l' := l.(anchors := l.anchors[a := AnchorEntry(false, treeOf(a), true)], hashAnchor := newrt);
            && (LayerOk(l', v, treeOf) <==> a != EMPTY_TREE.root)
            && Overlay(l', v) == Overlay(l, v).(anchors := Overlay(l, v).anchors - {a}, bestAnchor := newrt)
  {
    hide OverlayAnchors, OverlayCoins, OverlayNullifiers, AnchorsOk, CoinsOk, NullifiersOk;
    HiddenAnchor(l.anchors, v.anchors, a, treeOf);
  }

  lemma HiddenAnchor(cached: map<Hash, AnchorEntry>, base: map<Hash, Tree>, a: Hash, treeOf: Hash -> Tree)
    requires AnchorsOk(cached, base, treeOf)
    ensures var cached' := cached[a := AnchorEntry(false, treeOf(a), true)];
            && (AnchorsOk(cached', base, treeOf) <==> a != EMPTY_TREE.root)
            && OverlayAnchors(cached', base) == OverlayAnchors(cached, base) - {a}
  {
    var cached' := cached[a := AnchorEntry(false, treeOf(a), true)];
    assert OverlayAnchors(cached', base) == OverlayAnchors(cached, base) - {a};
    assert a == EMPTY_TREE.root ==> !AnchorEntryOk(cached'[a], a, a in base, treeOf);
  }

  lemma PushAnchorView(s: Stack, t: Tree, treeOf: Hash -> Tree)
    requires Sound(s, treeOf) && s.Cache?
    requires MayWrite(ViewOf(s), PushAnchor(t), treeOf)
    ensures Sound(Write(s, PushAnchor(t)), treeOf)
    ensures ViewOf(Write(s, PushAnchor(t))) == ViewWrite(ViewOf(s), PushAnchor(t))
    ensures Views(Write(s, PushAnchor(t)))[1..] == Views(s)[1..]
  {
    GetBestAnchorReadsView(s, treeOf);
    var s1 := GetBestAnchor(s).0;
    if ViewOf(s).bestAnchor != t.root {
      EnterAnchor(s1.layer, ViewOf(s1.base), t, treeOf);
    }
    WriteThrough(s, s1, Write(s, PushAnchor(t)).layer, treeOf);
  }

  // Popping acts on the plain view in every case, and leaves the stack sound unless it is the empty root that goes.
  lemma PopAnchorView(s: Stack, newrt: Hash, treeOf: Hash -> Tree)
    requires Sound(s, treeOf) && s.Cache? && MayPop(ViewOf(s), newrt)
    ensures var s' := Write(s, PopAnchor(newrt)); var current := ViewOf(s).bestAnchor;
            && (Sound(s', treeOf) <==> current == newrt || current != EMPTY_TREE.root)
            && ViewOf(s') == ViewWrite(ViewOf(s), PopAnchor(newrt)) && Views(s')[1..] == Views(s)[1..]
  {
    hide LayerOk, Overlay, Sound;
    GetBestAnchorReadsView(s, treeOf);
    var (s1, current) := GetBestAnchor(s);
    SameView(s, s1, treeOf);
    if current != newrt {
      SoundView(s1, treeOf);
      GetAnchorReadsView(s1, current, treeOf);
      SameView(s1, GetAnchor(s1, current).0, treeOf);
      PopCurrent(s, GetAnchor(s1, current).0, current, newrt, treeOf);
    }
  }

  lemma SameView(s: Stack, s': Stack, treeOf: Hash -> Tree)
    requires ReadOnly(s, s', treeOf)
    ensures ViewOf(s') == ViewOf(s)
  {
    assert Views(s')[0] == Views(s)[0];
  }

  lemma PopCurrent(s: Stack, s2: Stack, current: Hash, newrt: Hash, treeOf: Hash -> Tree)
    requires s.Cache? && s2.Cache? && Sound(s2, treeOf) && Views(s2) == Views(s) && newrt != NULL
    requires current == ViewOf(s).bestAnchor != newrt
    ensures var s' := Cache(s2.layer.(anchors := s2.layer.anchors[current := AnchorEntry(false, treeOf(current), true)],
                                      hashAnchor := newrt), s2.base);
            && (Sound(s', treeOf) <==> current != EMPTY_TREE.root)
            && ViewOf(s') == ViewWrite(ViewOf(s), PopAnchor(newrt)) && Views(s')[1..] == Views(s)[1..]
  {
    HideAnchor(s2.layer, ViewOf(s2.base), current, newrt, treeOf);
    assert ViewOf(s2) == Views(s2)[0] == Views(s)[0] == ViewOf(s);
    assert Views(s2)[1..] == Views(s2.base) && Views(s)[1..] == Views(s.base);
  }

  // The top n levels are flushed in turn, each into the one below it.
  function FlushDown(s: Stack, n: nat): Stack
    decreases n
  {
    if n == 0 || s.Disk? then s
    else var f := Flush(s); Cache(f.layer, FlushDown(f.base, n - 1))
  }

  // The cache hides the empty root and owes that to the level below, which is sound.
  ghost predicate HidesEmptyRoot(s: Stack, treeOf: Hash -> Tree) {
    && s.Cache? && Sound(s.base, treeOf)
    && EMPTY_TREE.root in s.layer.anchors
    && !s.layer.anchors[EMPTY_TREE.root].entered && s.layer.anchors[EMPTY_TREE.root].isDirty
  }

  lemma FlushHandsDown(s: Stack, treeOf: Hash -> Tree)
    requires HidesEmptyRoot(s, treeOf)
    ensures Flush(s).base.Disk? == s.base.Disk?
    ensures s.base.Cache? ==> HidesEmptyRoot(Flush(s).base, treeOf) && Depth(Flush(s).base) == Depth(s.base)
  {
    if s.base.Disk? { return; }
    var child, parent, a := s.layer.anchors, s.base.layer.anchors, EMPTY_TREE.root;
    if a in parent { assert AnchorEntryOk(parent[a], a, a in ViewOf(s.base.base).anchors, treeOf); }
    assert Merged(child, parent, MergeAnchor, a).Some?;
  }

  lemma EmptyLayerShows(l: Layer, b: Stack)
    requires l.anchors == map[]
    ensures ViewOf(Cache(l, b)).anchors == ViewOf(b).anchors
  {
    assert OverlayAnchors(map[], ViewOf(b).anchors) == ViewOf(b).anchors;
  }

  lemma {:induction false} HiddenUntilDisk(s: Stack, n: nat, treeOf: Hash -> Tree)
    requires HidesEmptyRoot(s, treeOf) && n <= Depth(s)
    ensures EMPTY_TREE.root in ViewOf(FlushDown(s, n)).anchors <==> n == Depth(s)
    decreases n
  {
    hide Sound, OverlayCoins, OverlayNullifiers, BatchWrite;
    if n > 0 {
      hide OverlayAnchors, Overlay;
      var f := Flush(s);
      FlushHandsDown(s, treeOf);
      if s.base.Cache? { HiddenUntilDisk(f.base, n - 1, treeOf); }
      EmptyLayerShows(f.layer, FlushDown(f.base, n - 1));
    }
  }

  lemma PopHides(s: Stack, newrt: Hash, treeOf: Hash -> Tree)
    requires Sound(s, treeOf) && s.Cache? && MayPop(ViewOf(s), newrt)
    requires ViewOf(s).bestAnchor == EMPTY_TREE.root != newrt
    ensures HidesEmptyRoot(Write(s, PopAnchor(newrt)), treeOf) && Depth(Write(s, PopAnchor(newrt))) == Depth(s)
  {
    hide LayerOk, Overlay, GetAnchor, GetBestAnchor;
    GetBestAnchorReadsView(s, treeOf);
    var (s1, current) := GetBestAnchor(s);
    GetAnchorReadsView(s1, current, treeOf);
    var s2 := GetAnchor(s1, current).0;
    assert |Views(s2)| == |Views(s1)| == |Views(s)|;
  }

  // A popped empty root stays hidden until the pop is flushed all the way into the database, which always knows it:
  // popping it cannot act as on a plain map. The database asserts that the block hash is set.
  lemma EmptyRootComesBackIff(s: Stack, newrt: Hash, n: nat, treeOf: Hash -> Tree)
    requires Sound(s, treeOf) && s.Cache? && n <= Depth(s) && (n == Depth(s) ==> s.layer.hashBlock != NULL)
    requires MayPop(ViewOf(s), newrt) && ViewOf(s).bestAnchor == EMPTY_TREE.root != newrt
    ensures EMPTY_TREE.root in ViewOf(FlushDown(Write(s, PopAnchor(newrt)), n)).anchors <==> n == Depth(s)
  {
    PopHides(s, newrt, treeOf);
    HiddenUntilDisk(Write(s, PopAnchor(newrt)), n, treeOf);
  }

  lemma {:induction false} MarkNullifiersView(m: map<Hash, NullifierEntry>, ns: seq<Hash>, spent: bool, base: set<Hash>)
    requires NullifiersOk(m, base)
    ensures NullifiersOk(MarkNullifiers(m, ns, spent), base)
    ensures var named := set n | n in ns; var was := OverlayNullifiers(m, base);
            OverlayNullifiers(MarkNullifiers(m, ns, spent), base) == if spent then was + named else was - named
  {
    hide NullifiersOk, OverlayNullifiers;
    if ns != [] {
      var init, last := ns[..|ns| - 1], ns[|ns| - 1];
      MarkNullifiersView(m, init, spent, base);
      assert ns == init + [last];
      assert (set n | n in ns) == (set n | n in init) + {last};
      MarkOne(MarkNullifiers(m, init, spent), last, spent, base);
    }
  }

  lemma MarkOne(m: map<Hash, NullifierEntry>, n: Hash, spent: bool, base: set<Hash>)
    requires NullifiersOk(m, base)
    ensures var m', was := m[n := NullifierEntry(spent, true)], OverlayNullifiers(m, base);
            NullifiersOk(m', base) && OverlayNullifiers(m', base) == if spent then was + {n} else was - {n}
  {
  }

  // Every permitted write does to the cache's view what it does to a plain view, and nothing below.
  lemma WriteRefines(s: Stack, w: WriteOp, treeOf: Hash -> Tree)
    requires Sound(s, treeOf) && s.Cache?
    requires MayWrite(ViewOf(s), w, treeOf)
    ensures Sound(Write(s, w), treeOf)
    ensures Views(Write(s, w)) == [ViewWrite(ViewOf(s), w)] + Views(s)[1..]
    ensures w.AddCoin? ==> !AddThrows(s.layer, w.o, w.coin, w.possibleOverwrite)
  {
    match w
    case AddCoin(o, coin, possibleOverwrite) => AddCoinView(s, o, coin, possibleOverwrite, treeOf);
    case SpendCoin(o) => SpendCoinView(s, o, treeOf);
    case SetBestBlock(_) =>
    case PushAnchor(t) => PushAnchorView(s, t, treeOf);
    case PopAnchor(newrt) => PopAnchorView(s, newrt, treeOf);
    case SetNullifiers(ns, spent) => MarkNullifiersView(s.layer.nullifiers, ns, spent, ViewOf(s.base).nullifiers);
    var s' := Write(s, w);
    assert Views(s') == [ViewOf(s')] + Views(s')[1..];
  }

  // What can be seen after a write, key by key; what is not named is as it was.
  ghost predicate ShowsWrite(v: View, w: WriteOp, v': View)
    requires w.AddCoin? ==> w.coin.Unspent?
  {
    match w
    case AddCoin(o, coin, _) =>
      && v' == v.(coins := v'.coins) && (forall p | p != o :: Find(v'.coins, p) == Find(v.coins, p))
      && Find(v'.coins, o) == if coin.script.unspendable || coin.script.zerocoinMint then Find(v.coins, o)
                              else Some(coin)
    case SpendCoin(o) =>
      && v' == v.(coins := v'.coins) && o !in v'.coins
      && forall p | p != o :: Find(v'.coins, p) == Find(v.coins, p)
    case SetBestBlock(h) => v' == v.(bestBlock := h)
    case PushAnchor(t) =>
      && v' == v.(anchors := v'.anchors, bestAnchor := t.root)
      && (v.bestAnchor != t.root ==> Find(v'.anchors, t.root) == Some(t))
      && forall a | a != t.root || v.bestAnchor == t.root :: Find(v'.anchors, a) == Find(v.anchors, a)
    case PopAnchor(newrt) =>
      && v' == v.(anchors := v'.anchors, bestAnchor := newrt)
      && (v.bestAnchor != newrt ==> v.bestAnchor !in v'.anchors)
      && forall a | a != v.bestAnchor || v.bestAnchor == newrt :: Find(v'.anchors, a) == Find(v.anchors, a)
    case SetNullifiers(ns, spent) =>
      && v' == v.(nullifiers := v'.nullifiers)
      && forall n :: n in v'.nullifiers <==> if n in ns then spent else n in v.nullifiers
  }

  lemma ViewWriteShows(v: View, w: WriteOp)
    requires w.AddCoin? ==> w.coin.Unspent?
    ensures ShowsWrite(v, w, ViewWrite(v, w))
  {
  }

  lemma WriteMeans(s: Stack, w: WriteOp, treeOf: Hash -> Tree)
    requires Sound(s, treeOf) && s.Cache? && MayWrite(ViewOf(s), w, treeOf)
    ensures ShowsWrite(ViewOf(s), w, ViewOf(Write(s, w)))
  {
    hide Write, Sound, ShowsWrite, ViewWrite;
    ViewWriteShows(ViewOf(s), w);
    WriteRefines(s, w, treeOf);
    assert ViewOf(Write(s, w)) == Views(Write(s, w))[0];
  }

  /* ----- Runs ----- */

  // Reads, uncaching and flushing, at a level counted from the top of the stack.
  datatype LevelOp =
    | ReadCoin(o: OutPoint) | ReadAnchor(a: Hash) | ReadNullifier(n: Hash) | LoadBestBlock | LoadBestAnchor
    | DropCoin(o: OutPoint) | FlushLevel

  datatype Op = Level(depth: nat, level: LevelOp) | Top(write: WriteOp) | NewCache | Discard

  function ApplyHere(s: Stack, op: LevelOp): Stack {
    match op
    case ReadCoin(o) => GetCoin(s, o).0
    case ReadAnchor(a) => GetAnchor(s, a).0
    case ReadNullifier(n) => GetNullifier(s, n).0
    case LoadBestBlock => GetBestBlock(s).0
    case LoadBestAnchor => GetBestAnchor(s).0
    case DropCoin(o) => Uncache(s, o)
    case FlushLevel => Flush(s)
  }

  function ApplyAt(s: Stack, depth: nat, op: LevelOp): Stack {
    if depth == 0 || s.Disk? then ApplyHere(s, op) else Cache(s.layer, ApplyAt(s.base, depth - 1, op))
  }

  function At(s: Stack, depth: nat): (level: Stack)
    requires depth <= Depth(s)
    ensures depth < Depth(s) ==> level.Cache?
  {
    if depth == 0 then s else At(s.base, depth - 1)
  }

  ghost predicate Legal(s: Stack, op: Op, treeOf: Hash -> Tree) {
    match op
    case Level(d, FlushLevel) => d < Depth(s) && MayFlush(At(s, d))
    case Level(d, _) => d <= Depth(s)
    case Top(w) => s.Cache? && MayWrite(ViewOf(s), w, treeOf)
    case NewCache => true
    case Discard => s.Cache?
  }

  function Step(s: Stack, op: Op): Stack {
    match op
    case Level(d, l) => ApplyAt(s, d, l)
    case Top(w) => if s.Cache? then Write(s, w) else s
    case NewCache => Cache(EMPTY_LAYER, s)
    case Discard => if s.Cache? then s.base else s
  }

  // The same step on the plain views of all levels.
  function ViewsStep(vs: seq<View>, op: Op): seq<View> {
    match op
    case Level(d, FlushLevel) => if d + 1 < |vs| then vs[d + 1 := vs[d]] else vs
    case Level(_, _) => vs
    case Top(w) => if vs == [] then vs else [ViewWrite(vs[0], w)] + vs[1..]
    case NewCache => if vs == [] then vs else [vs[0]] + vs
    case Discard => if vs == [] then vs else vs[1..]
  }

  predicate OpThrows(s: Stack, op: Op) {
    match op
    case Level(d, FlushLevel) => d < Depth(s) && Throws(At(s, d).layer.coins, At(s, d).base)
    case Level(_, _) => false
    case Top(w) => s.Cache? && w.AddCoin? && AddThrows(s.layer, w.o, w.coin, w.possibleOverwrite)
    case NewCache => false
    case Discard => false
  }

  function Run(s: Stack, ops: seq<Op>): Stack
    decreases |ops|
  {
    if ops == [] then s else Run(Step(s, ops[0]), ops[1..])
  }

  function ViewsRun(vs: seq<View>, ops: seq<Op>): seq<View>
    decreases |ops|
  {
    if ops == [] then vs else ViewsRun(ViewsStep(vs, ops[0]), ops[1..])
  }

  ghost predicate LegalRun(s: Stack, ops: seq<Op>, treeOf: Hash -> Tree)
    decreases |ops|
  {
    ops == [] || (Legal(s, ops[0], treeOf) && LegalRun(Step(s, ops[0]), ops[1..], treeOf))
  }

  predicate SomeStepThrows(s: Stack, ops: seq<Op>)
    decreases |ops|
  {
    ops != [] && (OpThrows(s, ops[0]) || SomeStepThrows(Step(s, ops[0]), ops[1..]))
  }

  lemma ReadHere(s: Stack, op: LevelOp, treeOf: Hash -> Tree)
    requires Sound(s, treeOf) && !op.FlushLevel?
    ensures ReadOnly(s, ApplyHere(s, op), treeOf)
  {
    hide ReadOnly, Sound, ViewOf, GetCoin, GetAnchor, GetNullifier, GetBestBlock, GetBestAnchor, Uncache;
    match op
    case ReadCoin(o) => GetCoinReadsView(s, o, treeOf);
    case ReadAnchor(a) => GetAnchorReadsView(s, a, treeOf);
    case ReadNullifier(n) => GetNullifierReadsView(s, n, treeOf);
    case LoadBestBlock => GetBestBlockReadsView(s, treeOf);
    case LoadBestAnchor => GetBestAnchorReadsView(s, treeOf);
    case DropCoin(o) => UncacheKeepsView(s, o, treeOf);
    case FlushLevel =>
  }

  lemma {:induction false} ReadAt(s: Stack, d: nat, op: LevelOp, treeOf: Hash -> Tree)
    requires Sound(s, treeOf) && d <= Depth(s) && !op.FlushLevel?
    ensures ReadOnly(s, ApplyAt(s, d, op), treeOf)
  {
    if d == 0 || s.Disk? {
      ReadHere(s, op, treeOf);
    } else {
      ReadAt(s.base, d - 1, op, treeOf);
      ReadThrough(s.layer, s.base, s.layer, ApplyAt(s.base, d - 1, op), treeOf);
    }
  }

  lemma {:induction false} SoundAt(s: Stack, d: nat, treeOf: Hash -> Tree)
    requires Sound(s, treeOf) && d <= Depth(s)
    ensures Sound(At(s, d), treeOf)
  {
    if d > 0 { SoundAt(s.base, d - 1, treeOf); }
  }

  // A flush at any level leaves that level's view, and every view but the one below it, unchanged.
  lemma {:induction false} FlushAt(s: Stack, d: nat, treeOf: Hash -> Tree)
    requires Sound(s, treeOf) && d < Depth(s) && MayFlush(At(s, d))
    ensures Sound(ApplyAt(s, d, FlushLevel), treeOf)
    ensures Views(ApplyAt(s, d, FlushLevel)) == Views(s)[d + 1 := Views(s)[d]]
  {
    if d == 0 {
      FlushKeepsViewIff(s, treeOf);
    } else {
      FlushAt(s.base, d - 1, treeOf);
      UnderTop(s.layer, s.base, ApplyAt(s.base, d - 1, FlushLevel), treeOf);
      UpdateTail(ViewOf(s), Views(s.base), d, Views(s.base)[d - 1]);
    }
  }

  lemma UpdateTail<T>(x: T, xs: seq<T>, i: nat, y: T)
    requires i < |xs|
    ensures ([x] + xs)[i + 1 := y] == [x] + xs[i := y]
  {
  }

  lemma UnderTop(l: Layer, b: Stack, b': Stack, treeOf: Hash -> Tree)
    requires Sound(Cache(l, b), treeOf) && Sound(b', treeOf)
    requires Views(b')[0] == Views(b)[0]
    ensures Sound(Cache(l, b'), treeOf)
    ensures Views(Cache(l, b')) == [ViewOf(Cache(l, b))] + Views(b')
  {
    assert Views(b')[0] == ViewOf(b') && Views(b)[0] == ViewOf(b);
  }

  lemma EmptyOverlay(l: Layer, v: View)
    requires l.coins == map[] && l.anchors == map[] && l.nullifiers == map[]
    requires l.hashBlock in {NULL, v.bestBlock} && l.hashAnchor in {NULL, v.bestAnchor}
    ensures Overlay(l, v) == v
  {
    assert OverlayCoins(map[], v.coins) == v.coins;
    assert OverlayAnchors(map[], v.anchors) == v.anchors;
    assert OverlayNullifiers(map[], v.nullifiers) == v.nullifiers;
  }

  // The whole view survives a flush, and becomes the base's, exactly when neither hash is lost.
  lemma FlushKeepsViewIff(s: Stack, treeOf: Hash -> Tree)
    requires Sound(s, treeOf) && s.Cache? && (s.base.Disk? ==> s.layer.hashBlock != NULL)
    ensures Sound(Flush(s), treeOf)
    ensures Views(Flush(s)) == Views(s)[1 := Views(s)[0]] <==> KeepsHashes(s.layer, s.base)
    ensures ViewOf(Flush(s)) == ViewOf(s) <==> KeepsHashes(s.layer, s.base)
  {
    hide Sound, KeepsHashes, BatchWrite;
    BatchWriteTakesViewIff(s.layer, s.base, treeOf);
    var s' := Flush(s);
    RawHashesShow(s.layer, s.base);
    EmptyOverlay(s'.layer, ViewOf(s'.base));
    EmptyLayerIsSound(s'.layer, s'.base, treeOf);
    BatchWriteStaysAbove(s.layer, s.base);
    BelowTop(s.base, s'.base);
    TwoViews(s, s');
  }

  lemma RawHashesShow(l: Layer, b: Stack)
    ensures l.hashBlock in {NULL, ViewOf(BatchWrite(l, b)).bestBlock}
    ensures l.hashAnchor in {NULL, ViewOf(BatchWrite(l, b)).bestAnchor}
  {
  }

  lemma BatchWriteStaysAbove(l: Layer, b: Stack)
    ensures var b' := BatchWrite(l, b); b.Disk? == b'.Disk? && (b.Cache? ==> b'.base == b.base)
  {
  }

  lemma TwoViews(s: Stack, s': Stack)
    requires s.Cache? && s'.Cache? && ViewOf(s') == ViewOf(s'.base) &&
             Views(s'.base) == Views(s.base)[0 := ViewOf(s'.base)]
    ensures Views(s') == Views(s)[1 := Views(s)[0]] <==> ViewOf(s'.base) == ViewOf(s)
  {
    hide ViewOf;
    assert Views(s') == [ViewOf(s')] + Views(s'.base) && Views(s) == [ViewOf(s)] + Views(s.base);
    assert Views(s')[1] == Views(s'.base)[0] == ViewOf(s'.base);
    UpdateTail(ViewOf(s), Views(s.base), 0, ViewOf(s));
  }

  lemma EmptyLayerIsSound(l: Layer, b: Stack, treeOf: Hash -> Tree)
    requires Sound(b, treeOf) && l.coins == map[] && l.anchors == map[] && l.nullifiers == map[]
    ensures Sound(Cache(l, b), treeOf)
  {
  }

  lemma BelowTop(b: Stack, b': Stack)
    requires b.Disk? == b'.Disk? && (b.Cache? ==> b'.base == b.base)
    ensures Views(b') == Views(b)[0 := ViewOf(b')]
  {
  }

  lemma StepRefines(s: Stack, op: Op, treeOf: Hash -> Tree)
    requires Sound(s, treeOf) && Legal(s, op, treeOf)
    ensures Sound(Step(s, op), treeOf)
    ensures Views(Step(s, op)) == ViewsStep(Views(s), op)
    ensures !OpThrows(s, op)
  {
    hide LayerOk, Overlay, Write, ViewWrite, MayWrite;
    match op
    case Level(d, l) =>
      if l.FlushLevel? {
        FlushAt(s, d, treeOf);
        SoundAt(s, d, treeOf);
        FlushNeverThrows(At(s, d), treeOf);
      } else {
        ReadAt(s, d, l, treeOf);
      }
    case Top(w) => WriteRefines(s, w, treeOf);
    case NewCache =>
      EmptyOverlay(EMPTY_LAYER, ViewOf(s));
      EmptyLayerIsSound(EMPTY_LAYER, s, treeOf);
    case Discard =>
  }

  // Every level of the stack acts as one plain map, over every legal run, and nothing throws.
  lemma {:induction false} RunRefines(s: Stack, ops: seq<Op>, treeOf: Hash -> Tree)
    requires Sound(s, treeOf) && LegalRun(s, ops, treeOf)
    ensures Sound(Run(s, ops), treeOf)
    ensures Views(Run(s, ops)) == ViewsRun(Views(s), ops)
    ensures !SomeStepThrows(s, ops)
    decreases |ops|
  {
    if ops != [] {
      StepRefines(s, ops[0], treeOf);
      RunRefines(Step(s, ops[0]), ops[1..], treeOf);
    }
  }

  /* ----- What no run stores ----- */

  predicate Spendable(v: View) {
    forall o | o in v.coins ::
      v.coins[o].Unspent? && !v.coins[o].script.unspendable && !v.coins[o].script.zerocoinMint
  }

  lemma WriteKeepsSpendable(v: View, w: WriteOp, treeOf: Hash -> Tree)
    requires Spendable(v) && MayWrite(v, w, treeOf)
    ensures Spendable(ViewWrite(v, w))
  {
  }

  lemma {:induction false} ViewsStaySpendable(s: Stack, ops: seq<Op>, treeOf: Hash -> Tree)
    requires Sound(s, treeOf) && LegalRun(s, ops, treeOf) && forall v | v in Views(s) :: Spendable(v)
    ensures forall v | v in Views(Run(s, ops)) :: Spendable(v)
    decreases |ops|
  {
    hide Sound, Spendable, Write, ViewWrite, MayWrite, ApplyAt;
    if ops != [] {
      StepRefines(s, ops[0], treeOf);
      if ops[0].Top? {
        assert Views(s)[0] == ViewOf(s) && Views(s)[0] in Views(s);
        WriteKeepsSpendable(ViewOf(s), ops[0].write, treeOf);
      }
      ViewsStaySpendable(Step(s, ops[0]), ops[1..], treeOf);
    }
  }

  // From a database without unspendable outputs and zerocoin mints, no level of the stack ever shows one.
  lemma RunStoresSpendableOnly(db: Database, ops: seq<Op>, d: nat, o: OutPoint, treeOf: Hash -> Tree)
    requires Sound(Disk(db), treeOf) && LegalRun(Disk(db), ops, treeOf) && d <= Depth(Run(Disk(db), ops))
    requires forall p | p in db.coins :: !db.coins[p].script.unspendable && !db.coins[p].script.zerocoinMint
    requires o in Views(Run(Disk(db), ops))[d].coins
    ensures var coin := Views(Run(Disk(db), ops))[d].coins[o];
            coin.Unspent? && !coin.script.unspendable && !coin.script.zerocoinMint
  {
    hide LegalRun, Run;
    assert Spendable(ViewOf(Disk(db)));
    ViewsStaySpendable(Disk(db), ops, treeOf);
    assert Views(Run(Disk(db), ops))[d] in Views(Run(Disk(db), ops));
  }

  /* ----- A flush that loses the best block and the best anchor ----- */

  function OnlyRoots(h: Hash): Tree { Tree(h, 0) }

  // A database at block 5 and anchor 6, one cache that moved on to block 7 and anchor 8, and a new cache on top.
  const OLD_DISK := Disk(Database(map[], 5, map[6 := Tree(6, 0)], 6, {}))
  const MOVE_ON := [NewCache, Top(SetBestBlock(7)), Top(PushAnchor(Tree(8, 0))), NewCache]
  const MOVED := Cache(Layer(map[], 7, map[8 := AnchorEntry(true, Tree(8, 0), true)], 8, map[]), OLD_DISK)

  lemma RunFirst(s: Stack, op: Op, ops: seq<Op>, treeOf: Hash -> Tree)
    requires Legal(s, op, treeOf) && LegalRun(Step(s, op), ops, treeOf)
    ensures LegalRun(s, [op] + ops, treeOf) && Run(s, [op] + ops) == Run(Step(s, op), ops)
  {
    hide Step, Legal;
    assert ([op] + ops)[1..] == ops;
  }

  lemma MoveOnIsLegal()
    ensures Sound(OLD_DISK, OnlyRoots) && LegalRun(OLD_DISK, MOVE_ON, OnlyRoots)
    ensures Run(OLD_DISK, MOVE_ON) == Cache(EMPTY_LAYER, MOVED)
  {
    hide Overlay;
    var top := Cache(EMPTY_LAYER, MOVED);
    assert LegalRun(top, [], OnlyRoots) && Run(top, []) == top;
    hide Run, LegalRun;
    var s1, s2 := Cache(EMPTY_LAYER, OLD_DISK), Cache(EMPTY_LAYER.(hashBlock := 7), OLD_DISK);
    var push := Top(PushAnchor(Tree(8, 0)));
    RunFirst(MOVED, NewCache, [], OnlyRoots);
    RunFirst(s2, push, [NewCache], OnlyRoots);
    RunFirst(s1, Top(SetBestBlock(7)), [push, NewCache], OnlyRoots);
    RunFirst(OLD_DISK, NewCache, [Top(SetBestBlock(7)), push, NewCache], OnlyRoots);
  }

  lemma FlushLosesHashes()
    ensures Sound(OLD_DISK, OnlyRoots) && LegalRun(OLD_DISK, MOVE_ON, OnlyRoots)
    ensures var s := Run(OLD_DISK, MOVE_ON);
            && Sound(s, OnlyRoots) && s.Cache? && s.base.Cache? && !KeepsHashes(s.layer, s.base)
            && ViewOf(s).bestBlock == 7 && ViewOf(s).bestAnchor == 8
            && ViewOf(Flush(s)).bestBlock == 5 && ViewOf(Flush(s)).bestAnchor == 6
  {
    hide LegalRun, Run, ViewsRun, OverlayCoins, OverlayAnchors, OverlayNullifiers, MergeCoins, MergeAnchors,
         MergeNullifiers;
    MoveOnIsLegal();
    RunRefines(OLD_DISK, MOVE_ON, OnlyRoots);
  }

  /* ----- Undoing blocks ----- */

  // The Sapling part of a block: the nullifiers it spends and the commitment tree after it.
  datatype Block = Block(tree: Tree, nullifiers: seq<Hash>)

  datatype Sapling = Sapling(anchors: map<Hash, Tree>, bestAnchor: Hash, nullifiers: set<Hash>)

  function SaplingOf(v: View): Sapling {
    Sapling(v.anchors, v.bestAnchor, v.nullifiers)
  }

  predicate IsSaplingWrite(w: WriteOp) {
    w.PushAnchor? || w.PopAnchor? || w.SetNullifiers?
  }

  function ViewWrites(v: View, ws: seq<WriteOp>): View
    decreases |ws|
  {
    if ws == [] then v else ViewWrites(ViewWrite(v, ws[0]), ws[1..])
  }

  function Connects(blocks: seq<Block>): seq<WriteOp> {
    if blocks == [] then []
    else [SetNullifiers(blocks[0].nullifiers, true), PushAnchor(blocks[0].tree)] + Connects(blocks[1..])
  }

  // The blocks are undone last first, each back to the anchor before it.
  function Disconnects(blocks: seq<Block>, anchor: Hash): seq<WriteOp> {
    if blocks == [] then []
    else
      Disconnects(blocks[1..], blocks[0].tree.root) + [SetNullifiers(blocks[0].nullifiers, false), PopAnchor(anchor)]
  }

  // Each block brings new nullifiers, and a tree that is either new or the current one.
  predicate NewBlocks(v: View, blocks: seq<Block>)
    decreases |blocks|
  {
    blocks == [] ||
    (&& (forall n | n in blocks[0].nullifiers :: n !in v.nullifiers)
     && (blocks[0].tree.root == v.bestAnchor || blocks[0].tree.root !in v.anchors)
     && NewBlocks(ViewWrites(v, Connects(blocks[..1])), blocks[1..]))
  }

  lemma {:induction false} ViewWritesConcat(v: View, a: seq<WriteOp>, b: seq<WriteOp>)
    ensures ViewWrites(v, a + b) == ViewWrites(ViewWrites(v, a), b)
    decreases |a|
  {
    if a == [] {
      assert a + b == b;
    } else {
      assert (a + b)[1..] == a[1..] + b;
      ViewWritesConcat(ViewWrite(v, a[0]), a[1..], b);
    }
  }

  lemma {:induction false} DisconnectsUndoConnects(v: View, blocks: seq<Block>)
    requires NewBlocks(v, blocks)
    ensures ViewWrites(v, Connects(blocks) + Disconnects(blocks, v.bestAnchor)) == v
    decreases |blocks|
  {
    if blocks != [] {
      var block, rest := blocks[0], blocks[1..];
      var first := [SetNullifiers(block.nullifiers, true), PushAnchor(block.tree)];
      var last := [SetNullifiers(block.nullifiers, false), PopAnchor(v.bestAnchor)];
      var middle := Connects(rest) + Disconnects(rest, block.tree.root);
      var v1 := ViewWrites(v, first);
      assert Connects(blocks[..1]) == first;
      assert Connects(blocks) + Disconnects(blocks, v.bestAnchor) == first + middle + last;
      ViewWritesConcat(v, first + middle, last);
      ViewWritesConcat(v, first, middle);
      OneBlockUndone(v, block);
      DisconnectsUndoConnects(v1, rest);
    }
  }

  lemma TwoWrites(v: View, w: WriteOp, x: WriteOp)
    ensures ViewWrites(v, [w, x]) == ViewWrite(ViewWrite(v, w), x)
  {
    assert [w, x][1..] == [x];
    assert ViewWrites(ViewWrite(v, w), [x]) == ViewWrites(ViewWrite(ViewWrite(v, w), x), []);
  }

  lemma OneBlockUndone(v: View, block: Block)
    requires forall n | n in block.nullifiers :: n !in v.nullifiers
    requires block.tree.root == v.bestAnchor || block.tree.root !in v.anchors
    ensures var v1 := ViewWrites(v, [SetNullifiers(block.nullifiers, true), PushAnchor(block.tree)]);
            && v1.bestAnchor == block.tree.root
            && ViewWrites(v1, [SetNullifiers(block.nullifiers, false), PopAnchor(v.bestAnchor)]) == v
  {
    var v1 := ViewWrites(v, [SetNullifiers(block.nullifiers, true), PushAnchor(block.tree)]);
    TwoWrites(v, SetNullifiers(block.nullifiers, true), PushAnchor(block.tree));
    TwoWrites(v1, SetNullifiers(block.nullifiers, false), PopAnchor(v.bestAnchor));
    var named := set n | n in block.nullifiers;
    assert v.nullifiers + named - named == v.nullifiers;
    if block.tree.root != v.bestAnchor {
      assert v.anchors[block.tree.root := block.tree] - {block.tree.root} == v.anchors;
    }
  }

  // The Sapling writes of a run, in order.
  function SaplingWrites(ops: seq<Op>): seq<WriteOp> {
    if ops == [] then []
    else if ops[0].Top? && IsSaplingWrite(ops[0].write) then [ops[0].write] + SaplingWrites(ops[1..])
    else SaplingWrites(ops[1..])
  }

  // A cache is only thrown away once its base has taken over its Sapling state.
  predicate NothingDiscarded(vs: seq<View>, ops: seq<Op>)
    decreases |ops|
  {
    ops == [] ||
    (&& (ops[0].Discard? ==> |vs| > 1 && SaplingOf(vs[0]) == SaplingOf(vs[1]))
     && NothingDiscarded(ViewsStep(vs, ops[0]), ops[1..]))
  }

  lemma {:induction false} SameSaplingWrites(v: View, u: View, ws: seq<WriteOp>)
    requires SaplingOf(v) == SaplingOf(u)
    requires forall w | w in ws :: IsSaplingWrite(w)
    ensures SaplingOf(ViewWrites(v, ws)) == SaplingOf(ViewWrites(u, ws))
    decreases |ws|
  {
    if ws != [] {
      assert IsSaplingWrite(ws[0]);
      SameSaplingWrites(ViewWrite(v, ws[0]), ViewWrite(u, ws[0]), ws[1..]);
    }
  }

  lemma {:induction false} SaplingWritesAreSapling(ops: seq<Op>)
    ensures forall w | w in SaplingWrites(ops) :: IsSaplingWrite(w)
  {
    if ops != [] { SaplingWritesAreSapling(ops[1..]); }
  }

  // Only the Sapling writes matter to the Sapling state on top.
  lemma {:induction false} TopSapling(vs: seq<View>, ops: seq<Op>)
    requires vs != [] && NothingDiscarded(vs, ops)
    ensures var vs' := ViewsRun(vs, ops);
            vs' != [] && SaplingOf(vs'[0]) == SaplingOf(ViewWrites(vs[0], SaplingWrites(ops)))
    decreases |ops|
  {
    if ops != [] {
      var vs1 := ViewsStep(vs, ops[0]);
      TopSapling(vs1, ops[1..]);
      SaplingWritesAreSapling(ops[1..]);
      if ops[0].Top? && IsSaplingWrite(ops[0].write) {
        assert SaplingWrites(ops)[1..] == SaplingWrites(ops[1..]);
      } else {
        SameSaplingWrites(vs1[0], vs[0], SaplingWrites(ops[1..]));
      }
    }
  }

  // Connecting blocks and disconnecting them again restores the Sapling state, through
  // every legal run of reads, uncachings, coin writes, flushes and new or retired caches.
  lemma UndoRestoresSapling(s: Stack, ops: seq<Op>, blocks: seq<Block>, treeOf: Hash -> Tree)
    requires Sound(s, treeOf) && LegalRun(s, ops, treeOf)
    requires NothingDiscarded(Views(s), ops)
    requires NewBlocks(ViewOf(s), blocks)
    requires SaplingWrites(ops) == Connects(blocks) + Disconnects(blocks, ViewOf(s).bestAnchor)
    ensures SaplingOf(ViewOf(Run(s, ops))) == SaplingOf(ViewOf(s))
  {
    RunRefines(s, ops, treeOf);
    TopSapling(Views(s), ops);
    DisconnectsUndoConnects(ViewOf(s), blocks);
    var s' := Run(s, ops);
    assert Views(s')[0] == ViewOf(s') && Views(s)[0] == ViewOf(s);
  }
}
