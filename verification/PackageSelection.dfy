/**
 The value model of package selection: the mempool as a finite ancestor order with exact
 cached totals, the side table of modified totals, and what considering one package does.
 */
module PackageSelection {
  import opened Totals

  type TxId = nat

  // Strict ancestors, and the totals each entry caches over itself and its ancestors.
  datatype Pool = Pool(txs: set<TxId>, ancestors: TxId -> set<TxId>, size: TxId -> nat, sigOps: TxId -> nat,
                       isShielded: TxId -> bool, isFinal: TxId -> bool, countWithAncestors: TxId -> nat,
                       sizeWithAncestors: TxId -> nat, sigOpsWithAncestors: TxId -> nat)

  const TWO_64: nat := 0x1_0000_0000_0000_0000
  const TWO_32: nat := 0x1_0000_0000
  const RESERVED_SIZE: nat := 1000
  const RESERVED_SIGOPS: nat := 100
  const MAX_BLOCK_SIGOPS: nat := 40000
  const MAX_SHIELDED_SIZE: nat := 750000

  // The ancestor relation is a strict order on the pool.
  ghost predicate IsOrder(p: Pool) {
    && (forall t | t in p.txs :: p.ancestors(t) <= p.txs && t !in p.ancestors(t))
    && (forall t, a | t in p.txs && a in p.ancestors(t) :: p.ancestors(a) <= p.ancestors(t))
  }

  ghost predicate ExactAt(p: Pool, t: TxId) {
    && p.countWithAncestors(t) == |WithAncestors(p, t)|
    && p.sizeWithAncestors(t) == SetTotal(WithAncestors(p, t), p.size)
    && p.sigOpsWithAncestors(t) == SetTotal(WithAncestors(p, t), p.sigOps)
  }

  ghost predicate ExactTotals(p: Pool) {
    forall t | t in p.txs :: ExactAt(p, t)
  }

  // No total comes near the width of its counter.
  ghost predicate IsNarrow(p: Pool) {
    && 2 * SetTotal(p.txs, p.size) + RESERVED_SIZE < TWO_64
    && 2 * SetTotal(p.txs, p.sigOps) + RESERVED_SIGOPS < TWO_32
  }

  ghost predicate ValidPool(p: Pool) {
    IsOrder(p) && ExactTotals(p) && IsNarrow(p)
  }

  function WithAncestors(p: Pool, t: TxId): set<TxId> {
    p.ancestors(t) + {t}
  }

  lemma AncestorHasSmallerCount(p: Pool, t: TxId, a: TxId)
    requires IsOrder(p) && ExactTotals(p) && t in p.txs && a in p.ancestors(t)
    ensures p.countWithAncestors(a) < p.countWithAncestors(t)
  {
    ProperSubsetIsSmaller(WithAncestors(p, a), WithAncestors(p, t));
  }

  /* ----- The state of the selection ----- */

  // Unsigned totals: 64 bits for the size, 32 for the signature operations.
  datatype ModEntry = ModEntry(size: nat, sigOps: nat)

  // The shielded size goes on from what earlier blocks of the same assembler left: it is never reset.
  datatype Selection = Selection(block: seq<TxId>, modified: map<TxId, ModEntry>,
                                 blockSize: nat, blockSigOps: nat, shieldedSize: nat, carried: nat)

  function Start(carried: nat): Selection {
    Selection([], map[], RESERVED_SIZE, RESERVED_SIGOPS, carried, carried)
  }

  function Elems(s: seq<TxId>): set<TxId> {
    set t | t in s
  }

  lemma ElemsConcat(a: seq<TxId>, b: seq<TxId>)
    ensures Elems(a + b) == Elems(a) + Elems(b)
  {
  }

  function InBlock(sel: Selection): set<TxId> {
    Elems(sel.block)
  }

  ghost function Shielded(p: Pool, s: set<TxId>): set<TxId> {
    set t | t in s && p.isShielded(t)
  }

  // Each transaction at most once, and after all its ancestors.
  ghost predicate WellOrdered(p: Pool, block: seq<TxId>) {
    && (forall i, j | 0 <= i < j < |block| :: block[i] != block[j])
    && (forall i | 0 <= i < |block| :: block[i] in p.txs && p.ancestors(block[i]) <= Elems(block[..i]))
  }

  ghost predicate ExactCounters(p: Pool, maintenance: bool, sel: Selection) {
    && sel.blockSize == RESERVED_SIZE + SetTotal(InBlock(sel), p.size)
    && sel.blockSigOps == RESERVED_SIGOPS + SetTotal(InBlock(sel), p.sigOps)
    && sel.shieldedSize == sel.carried + SetTotal(Shielded(p, InBlock(sel)), p.size) <= MAX_SHIELDED_SIZE
    && (maintenance ==> Shielded(p, InBlock(sel)) == {})
  }

  ghost predicate ValidSelection(p: Pool, maintenance: bool, sel: Selection) {
    && WellOrdered(p, sel.block)
    && sel.modified.Keys <= p.txs - InBlock(sel)
    && ExactCounters(p, maintenance, sel)
  }

  lemma {:induction false} InBlockIsClosed(p: Pool, sel: Selection, t: TxId, a: TxId)
    requires WellOrdered(p, sel.block) && t in InBlock(sel) && a in p.ancestors(t)
    ensures a in InBlock(sel)
  {
    var i :| 0 <= i < |sel.block| && sel.block[i] == t;
    assert a in sel.block[..i];
  }

  lemma InBlockIsInPool(p: Pool, sel: Selection)
    requires WellOrdered(p, sel.block)
    ensures InBlock(sel) <= p.txs
  {
  }

  /* ----- One package ----- */

  // "Will it fit", in the widths of the source.
  function TestPackage(sel: Selection, blockMaxSize: nat, packageSize: nat, packageSigOps: nat): bool {
    && (sel.blockSize + packageSize) % TWO_64 < blockMaxSize
    && (sel.blockSigOps + packageSigOps) % TWO_32 < MAX_BLOCK_SIGOPS
  }

  function Package(p: Pool, sel: Selection, t: TxId): set<TxId> {
    (p.ancestors(t) - InBlock(sel)) + {t}
  }

  ghost predicate IsSorting(p: Pool, s: set<TxId>, sorted: seq<TxId>) {
    && Elems(sorted) == s
    && (forall i, j | 0 <= i < j < |sorted| :: sorted[i] != sorted[j])
    && (forall i, j | 0 <= i < j < |sorted| :: p.countWithAncestors(sorted[i]) <= p.countWithAncestors(sorted[j]))
  }

  // A shielded transaction is not added in maintenance, or beyond the reserved space.
  predicate MayAdd(p: Pool, maintenance: bool, sel: Selection, t: TxId) {
    p.isShielded(t) ==> !maintenance && sel.shieldedSize + p.size(t) <= MAX_SHIELDED_SIZE
  }

  function AddToBlock(p: Pool, sel: Selection, t: TxId): Selection {
    Selection(sel.block + [t], sel.modified - {t}, sel.blockSize + p.size(t), sel.blockSigOps + p.sigOps(t),
              sel.shieldedSize + (if p.isShielded(t) then p.size(t) else 0), sel.carried)
  }

  // Adds in order until a shielded transaction is refused; also says how many were added.
  function AddSorted(p: Pool, maintenance: bool, sel: Selection, sorted: seq<TxId>): (r: (Selection, nat))
    ensures r.1 <= |sorted|
    decreases |sorted|
  {
    if sorted == [] || !MayAdd(p, maintenance, sel, sorted[0]) then (sel, 0)
    else
      var (sel', k) := AddSorted(p, maintenance, AddToBlock(p, sel, sorted[0]), sorted[1..]);
      (sel', k + 1)
  }

  // How many transactions of a sorted package are added.
  function Accepted(p: Pool, maintenance: bool, sel: Selection, sorted: seq<TxId>): (k: nat)
    ensures k <= |sorted|
  {
    AddSorted(p, maintenance, sel, sorted).1
  }

  lemma {:induction false} AddSortedAppends(p: Pool, maintenance: bool, sel: Selection, sorted: seq<TxId>)
    ensures var (sel', k) := AddSorted(p, maintenance, sel, sorted);
            && (sorted != [] ==> (k == 0 <==> !MayAdd(p, maintenance, sel, sorted[0])))
            && sel'.block == sel.block + sorted[..k]
    decreases |sorted|
  {
    hide MayAdd;
    if sorted != [] && MayAdd(p, maintenance, sel, sorted[0]) {
      AddSortedAppends(p, maintenance, AddToBlock(p, sel, sorted[0]), sorted[1..]);
      var k := AddSorted(p, maintenance, sel, sorted).1;
      assert sorted[..k] == [sorted[0]] + sorted[1..][..k - 1];
    }
  }

  lemma {:induction false} AddSortedErases(p: Pool, maintenance: bool, sel: Selection, sorted: seq<TxId>)
    ensures var (sel', k) := AddSorted(p, maintenance, sel, sorted); sel'.modified == sel.modified - Elems(sorted[..k])
    decreases |sorted|
  {
    hide MayAdd;
    if sorted != [] && MayAdd(p, maintenance, sel, sorted[0]) {
      AddSortedErases(p, maintenance, AddToBlock(p, sel, sorted[0]), sorted[1..]);
      var k := AddSorted(p, maintenance, sel, sorted).1;
      assert sorted[..k] == [sorted[0]] + sorted[1..][..k - 1];
      ElemsConcat([sorted[0]], sorted[1..][..k - 1]);
      assert Elems([sorted[0]]) == {sorted[0]};
    }
  }

  lemma {:induction false} AddSortedCarries(p: Pool, maintenance: bool, sel: Selection, sorted: seq<TxId>)
    ensures AddSorted(p, maintenance, sel, sorted).0.carried == sel.carried
    decreases |sorted|
  {
    hide MayAdd;
    if sorted != [] && MayAdd(p, maintenance, sel, sorted[0]) {
      AddSortedCarries(p, maintenance, AddToBlock(p, sel, sorted[0]), sorted[1..]);
    }
  }

  lemma AddSortedAdds(p: Pool, maintenance: bool, sel: Selection, sorted: seq<TxId>)
    ensures var (sel', k) := AddSorted(p, maintenance, sel, sorted);
            && (sorted != [] ==> (k == 0 <==> !MayAdd(p, maintenance, sel, sorted[0])))
            && sel'.block == sel.block + sorted[..k]
            && InBlock(sel') == InBlock(sel) + Elems(sorted[..k])
            && sel'.modified == sel.modified - Elems(sorted[..k])
  {
    hide MayAdd, AddSorted;
    AddSortedAppends(p, maintenance, sel, sorted);
    AddSortedErases(p, maintenance, sel, sorted);
    ElemsConcat(sel.block, sorted[..AddSorted(p, maintenance, sel, sorted).1]);
  }

  function Minus(e: ModEntry, size: nat, sigOps: nat): ModEntry {
    ModEntry((e.size - size) % TWO_64, (e.sigOps - sigOps) % TWO_32)
  }

  function Recorded(p: Pool, modified: map<TxId, ModEntry>, t: TxId): ModEntry {
    if t in modified then modified[t] else ModEntry(p.sizeWithAncestors(t), p.sigOpsWithAncestors(t))
  }

  // What UpdatePackagesForAdded leaves: each transaction outside `skip` with ancestors in `added`
  // has their totals taken off.
  ghost function Updated(p: Pool, modified: map<TxId, ModEntry>, added: set<TxId>, skip: set<TxId>)
    : map<TxId, ModEntry>
  {
    map t | t in p.txs + modified.Keys && (t in modified || Affected(p, added, skip, t))
      :: if Affected(p, added, skip, t) then
           Minus(Recorded(p, modified, t), SetTotal(p.ancestors(t) * added, p.size),
               SetTotal(p.ancestors(t) * added, p.sigOps))
         else modified[t]
  }

  predicate Affected(p: Pool, added: set<TxId>, skip: set<TxId>, t: TxId) {
    t in p.txs && t !in skip && p.ancestors(t) * added != {}
  }

  // Considering a package that passed the tests.
  ghost function Consider(p: Pool, maintenance: bool, sel: Selection, sorted: seq<TxId>): Selection {
    var package := Elems(sorted);
    var sel' := AddSorted(p, maintenance, sel, sorted).0;
    sel'.(modified := Updated(p, sel'.modified, package, package))
  }

  /* ----- What holds on all runs ----- */

  lemma AddToBlockCounts(p: Pool, maintenance: bool, sel: Selection, t: TxId)
    requires ExactCounters(p, maintenance, sel)
    requires t !in InBlock(sel) && MayAdd(p, maintenance, sel, t)
    ensures InBlock(AddToBlock(p, sel, t)) == InBlock(sel) + {t}
    ensures ExactCounters(p, maintenance, AddToBlock(p, sel, t))
  {
    var was, now := InBlock(sel), InBlock(AddToBlock(p, sel, t));
    ElemsConcat(sel.block, [t]);
    SetTotalAdd(was, t, p.size);
    SetTotalAdd(was, t, p.sigOps);
    if p.isShielded(t) {
      assert Shielded(p, now) == Shielded(p, was) + {t};
      SetTotalAdd(Shielded(p, was), t, p.size);
    } else {
      assert Shielded(p, now) == Shielded(p, was);
    }
  }

  lemma AppendWellOrdered(p: Pool, block: seq<TxId>, t: TxId)
    requires WellOrdered(p, block)
    requires t in p.txs && t !in block && p.ancestors(t) <= Elems(block)
    ensures WellOrdered(p, block + [t])
  {
    var block' := block + [t];
    forall i | 0 <= i < |block'|
      ensures block'[i] in p.txs && p.ancestors(block'[i]) <= Elems(block'[..i])
    {
      if i < |block| {
        assert block'[..i] == block[..i];
      } else {
        assert block'[..i] == block;
      }
    }
  }

  lemma AddToBlockIsValid(p: Pool, maintenance: bool, sel: Selection, t: TxId)
    requires ValidSelection(p, maintenance, sel)
    requires t in p.txs - InBlock(sel) && p.ancestors(t) <= InBlock(sel) && MayAdd(p, maintenance, sel, t)
    ensures ValidSelection(p, maintenance, AddToBlock(p, sel, t))
    ensures InBlock(AddToBlock(p, sel, t)) == InBlock(sel) + {t}
  {
    AddToBlockCounts(p, maintenance, sel, t);
    AppendWellOrdered(p, sel.block, t);
  }

  // The rest of a package: everything an entry still needs is in the block or before it in the package.
  ghost predicate Pending(p: Pool, inBlock: set<TxId>, sorted: seq<TxId>) {
    && Elems(sorted) <= p.txs - inBlock
    && (forall i, j | 0 <= i < j < |sorted| :: sorted[i] != sorted[j])
    && (forall i | 0 <= i < |sorted| :: p.ancestors(sorted[i]) <= inBlock + Elems(sorted[..i]))
  }

  // In a sorted set that holds an entry's ancestor, the ancestor stands before the entry.
  lemma AncestorComesEarlier(p: Pool, package: set<TxId>, sorted: seq<TxId>, i: nat, a: TxId)
    requires IsSorting(p, package, sorted)
    requires i < |sorted| && a in package && p.countWithAncestors(a) < p.countWithAncestors(sorted[i])
    ensures a in Elems(sorted[..i])
  {
    assert a in Elems(sorted);
    var j :| 0 <= j < |sorted| && sorted[j] == a;
    assert sorted[..i][j] == a;
  }

  lemma PackageHoldsAncestors(p: Pool, sel: Selection, t: TxId, u: TxId, a: TxId)
    requires IsOrder(p) && t in p.txs - InBlock(sel)
    requires u in Package(p, sel, t) && a in p.ancestors(u) && a !in InBlock(sel)
    ensures u in p.txs && a in Package(p, sel, t)
  {
  }

  lemma PackageAncestor(p: Pool, sel: Selection, t: TxId, sorted: seq<TxId>, i: nat, a: TxId)
    requires IsOrder(p) && ExactTotals(p) && t in p.txs - InBlock(sel)
    requires IsSorting(p, Package(p, sel, t), sorted)
    requires i < |sorted| && a in p.ancestors(sorted[i]) && a !in InBlock(sel)
    ensures a in Elems(sorted[..i])
  {
    assert sorted[i] in Elems(sorted);
    PackageHoldsAncestors(p, sel, t, sorted[i], a);
    AncestorHasSmallerCount(p, sorted[i], a);
    AncestorComesEarlier(p, Package(p, sel, t), sorted, i, a);
  }

  lemma PackageIsPending(p: Pool, sel: Selection, t: TxId, sorted: seq<TxId>)
    requires IsOrder(p) && ExactTotals(p) && t in p.txs - InBlock(sel)
    requires IsSorting(p, Package(p, sel, t), sorted)
    ensures Pending(p, InBlock(sel), sorted)
  {
    assert Package(p, sel, t) <= p.txs - InBlock(sel) by { assert p.ancestors(t) <= p.txs; }
    forall i | 0 <= i < |sorted| ensures p.ancestors(sorted[i]) <= InBlock(sel) + Elems(sorted[..i]) {
      forall a | a in p.ancestors(sorted[i]) && a !in InBlock(sel) ensures a in Elems(sorted[..i]) {
        PackageAncestor(p, sel, t, sorted, i, a);
      }
    }
  }

  lemma PendingRest(p: Pool, inBlock: set<TxId>, sorted: seq<TxId>)
    requires Pending(p, inBlock, sorted) && sorted != []
    ensures sorted[0] in p.txs - inBlock && p.ancestors(sorted[0]) <= inBlock
    ensures Pending(p, inBlock + {sorted[0]}, sorted[1..])
  {
    var t, rest := sorted[0], sorted[1..];
    assert sorted == [t] + rest;
    ElemsConcat([t], rest);
    assert p.ancestors(t) <= inBlock + Elems(sorted[..0]);
    forall i | 0 <= i < |rest| ensures p.ancestors(rest[i]) <= inBlock + {t} + Elems(rest[..i]) {
      assert sorted[..i + 1] == [t] + rest[..i];
      ElemsConcat([t], rest[..i]);
      assert p.ancestors(sorted[i + 1]) <= inBlock + Elems(sorted[..i + 1]);
    }
  }

  lemma {:induction false} AddSortedIsValid(p: Pool, maintenance: bool, sel: Selection, sorted: seq<TxId>)
    requires ValidSelection(p, maintenance, sel) && Pending(p, InBlock(sel), sorted)
    ensures ValidSelection(p, maintenance, AddSorted(p, maintenance, sel, sorted).0)
    decreases |sorted|
  {
    if sorted != [] && MayAdd(p, maintenance, sel, sorted[0]) {
      PendingRest(p, InBlock(sel), sorted);
      AddToBlockIsValid(p, maintenance, sel, sorted[0]);
      AddSortedIsValid(p, maintenance, AddToBlock(p, sel, sorted[0]), sorted[1..]);
    }
  }

  lemma AffectedIsOutside(p: Pool, maintenance: bool, sel: Selection, t: TxId, sorted: seq<TxId>, u: TxId)
    requires ValidPool(p) && ValidSelection(p, maintenance, sel)
    requires t in p.txs - InBlock(sel) && Elems(sorted) == Package(p, sel, t)
    requires Affected(p, Elems(sorted), Elems(sorted), u)
    ensures u !in InBlock(AddSorted(p, maintenance, sel, sorted).0)
  {
    var k := AddSorted(p, maintenance, sel, sorted).1;
    var a :| a in p.ancestors(u) * Elems(sorted);
    if u in InBlock(sel) { InBlockIsClosed(p, sel, u, a); }
    AddSortedAdds(p, maintenance, sel, sorted);
    assert Elems(sorted[..k]) <= Elems(sorted);
  }

  // Ordering, uniqueness, disjointness and the shielded cap survive every package, cut short or not.
  lemma ConsiderIsValid(p: Pool, maintenance: bool, sel: Selection, t: TxId, sorted: seq<TxId>)
    requires ValidPool(p) && ValidSelection(p, maintenance, sel)
    requires t in p.txs - InBlock(sel) && IsSorting(p, Package(p, sel, t), sorted)
    ensures ValidSelection(p, maintenance, Consider(p, maintenance, sel, sorted))
    ensures Consider(p, maintenance, sel, sorted).carried == sel.carried
  {
    PackageIsPending(p, sel, t, sorted);
    AddSortedCarries(p, maintenance, sel, sorted);
    AddSortedIsValid(p, maintenance, sel, sorted);
    forall u | Affected(p, Elems(sorted), Elems(sorted), u)
      ensures u !in InBlock(AddSorted(p, maintenance, sel, sorted).0)
    {
      AffectedIsOutside(p, maintenance, sel, t, sorted, u);
    }
  }

  /* ----- The side table against what is unselected ----- */

  // A transaction and those of its ancestors that are not in the block yet.
  function Unselected(p: Pool, inBlock: set<TxId>, t: TxId): set<TxId> {
    WithAncestors(p, t) - inBlock
  }

  // The recorded totals cover what is unselected and stay within the cached ones.
  ghost predicate Covers(p: Pool, inBlock: set<TxId>, t: TxId, e: ModEntry) {
    && SetTotal(Unselected(p, inBlock, t), p.size) <= e.size <= p.sizeWithAncestors(t)
    && SetTotal(Unselected(p, inBlock, t), p.sigOps) <= e.sigOps <= p.sigOpsWithAncestors(t)
  }

  // Every record of the side table covers.
  ghost predicate Faithful(p: Pool, sel: Selection) {
    forall t | t in sel.modified :: Covers(p, InBlock(sel), t, sel.modified[t])
  }

  // Every transaction with ancestors in the block has a record, or has failed.
  ghost predicate Listed(p: Pool, sel: Selection, failed: set<TxId>) {
    forall t | t in p.txs - InBlock(sel) && p.ancestors(t) * InBlock(sel) != {} :: t in sel.modified || t in failed
  }

  lemma CachedCovers(p: Pool, inBlock: set<TxId>, t: TxId)
    requires ValidPool(p) && t in p.txs
    ensures Covers(p, inBlock, t, ModEntry(p.sizeWithAncestors(t), p.sigOpsWithAncestors(t)))
  {
    SetTotalSubset(Unselected(p, inBlock, t), WithAncestors(p, t), p.size);
    SetTotalSubset(Unselected(p, inBlock, t), WithAncestors(p, t), p.sigOps);
  }

  lemma TotalsAreNarrow(p: Pool, t: TxId)
    requires ValidPool(p) && t in p.txs
    ensures p.sizeWithAncestors(t) <= SetTotal(p.txs, p.size) < TWO_64
    ensures p.sigOpsWithAncestors(t) <= SetTotal(p.txs, p.sigOps) < TWO_32
  {
    SetTotalSubset(WithAncestors(p, t), p.txs, p.size);
    SetTotalSubset(WithAncestors(p, t), p.txs, p.sigOps);
  }

  lemma MinusDoesNotWrap(e: ModEntry, size: nat, sigOps: nat)
    requires size <= e.size < TWO_64 && sigOps <= e.sigOps < TWO_32
    ensures Minus(e, size, sigOps) == ModEntry(e.size - size, e.sigOps - sigOps)
  {
  }

  // The record has room to spare for the ancestors in `refused`.
  ghost predicate Absorbs(p: Pool, inBlock: set<TxId>, refused: set<TxId>, t: TxId, e: ModEntry) {
    && SetTotal(Unselected(p, inBlock, t), p.size) + SetTotal(p.ancestors(t) * refused, p.size) <= e.size
    && SetTotal(Unselected(p, inBlock, t), p.sigOps) + SetTotal(p.ancestors(t) * refused, p.sigOps) <= e.sigOps
  }

  lemma SplitTotals(p: Pool, inBlock: set<TxId>, package: set<TxId>, added: set<TxId>, t: TxId, w: TxId -> nat)
    requires t !in package && added <= package && package !! inBlock
    ensures SetTotal(Unselected(p, inBlock, t), w)
         == SetTotal(Unselected(p, inBlock + added, t), w) + SetTotal(p.ancestors(t) * added, w)
    ensures SetTotal(p.ancestors(t) * package, w)
         == SetTotal(p.ancestors(t) * added, w) + SetTotal(p.ancestors(t) * (package - added), w)
    ensures SetTotal(p.ancestors(t) * package, w) <= SetTotal(Unselected(p, inBlock, t), w)
  {
    var gone, refused, stays := p.ancestors(t) * added, p.ancestors(t) * (package - added),
        Unselected(p, inBlock + added, t);
    assert Unselected(p, inBlock, t) == stays + gone;
    SetTotalUnion(stays, gone, w);
    assert p.ancestors(t) * package == gone + refused;
    SetTotalUnion(gone, refused, w);
    SetTotalSubset(p.ancestors(t) * package, Unselected(p, inBlock, t), w);
  }

  // The totals of a whole package are taken off a record, although only part of it was added. The record still
  // covers exactly when it had room for the part that was refused.
  lemma MinusCoversIff(p: Pool, inBlock: set<TxId>, package: set<TxId>, added: set<TxId>, t: TxId, e: ModEntry)
    requires p.sizeWithAncestors(t) < TWO_64 && p.sigOpsWithAncestors(t) < TWO_32
    requires t !in package && added <= package && package !! inBlock
    requires Covers(p, inBlock, t, e)
    ensures Covers(p, inBlock + added, t,
                   Minus(e, SetTotal(p.ancestors(t) * package, p.size), SetTotal(p.ancestors(t) * package, p.sigOps)))
       <==> Absorbs(p, inBlock, package - added, t, e)
  {
    SplitTotals(p, inBlock, package, added, t, p.size);
    SplitTotals(p, inBlock, package, added, t, p.sigOps);
    MinusDoesNotWrap(e, SetTotal(p.ancestors(t) * package, p.size), SetTotal(p.ancestors(t) * package, p.sigOps));
  }

  // Nothing among the ancestors was refused: there is room.
  lemma NoneRefused(p: Pool, inBlock: set<TxId>, refused: set<TxId>, t: TxId, e: ModEntry)
    requires Covers(p, inBlock, t, e) && p.ancestors(t) !! refused
    ensures Absorbs(p, inBlock, refused, t, e)
  {
    assert p.ancestors(t) * refused == {};
  }

  // An exact record has no room to spare: it is understated as soon as anything of positive size is refused.
  lemma ExactAbsorbsIff(p: Pool, inBlock: set<TxId>, refused: set<TxId>, t: TxId, e: ModEntry)
    requires e.size == SetTotal(Unselected(p, inBlock, t), p.size)
    requires e.sigOps == SetTotal(Unselected(p, inBlock, t), p.sigOps)
    ensures Absorbs(p, inBlock, refused, t, e)
       <==> forall a | a in p.ancestors(t) * refused :: p.size(a) == 0 && p.sigOps(a) == 0
  {
    SetTotalZeroIff(p.ancestors(t) * refused, p.size);
    SetTotalZeroIff(p.ancestors(t) * refused, p.sigOps);
  }

  lemma UpdatedCoversIff(p: Pool, inBlock: set<TxId>, package: set<TxId>, added: set<TxId>,
                         modified: map<TxId, ModEntry>, u: TxId)
    requires ValidPool(p) && package !! inBlock && added <= package && Affected(p, package, package, u)
    requires u in modified ==> Covers(p, inBlock, u, modified[u])
    ensures Covers(p, inBlock + added, u, Updated(p, modified, package, package)[u])
       <==> Absorbs(p, inBlock, package - added, u, Recorded(p, modified, u))
  {
    if u !in modified { CachedCovers(p, inBlock, u); }
    TotalsAreNarrow(p, u);
    MinusCoversIff(p, inBlock, package, added, u, Recorded(p, modified, u));
  }

  lemma StillCovers(p: Pool, inBlock: set<TxId>, added: set<TxId>, t: TxId, e: ModEntry)
    requires Covers(p, inBlock, t, e)
    ensures Covers(p, inBlock + added, t, e)
  {
    SetTotalSubset(Unselected(p, inBlock + added, t), Unselected(p, inBlock, t), p.size);
    SetTotalSubset(Unselected(p, inBlock + added, t), Unselected(p, inBlock, t), p.sigOps);
  }

  // Every transaction outside the package that is affected has room for what was refused of it.
  ghost predicate AllAbsorb(p: Pool, sel: Selection, package: set<TxId>, added: set<TxId>) {
    forall u | Affected(p, package, package, u) ::
      Absorbs(p, InBlock(sel), package - added, u, Recorded(p, sel.modified, u))
  }

  lemma FaithfulAfterIff(p: Pool, sel: Selection, package: set<TxId>, added: set<TxId>, sel1: Selection)
    requires ValidPool(p) && Faithful(p, sel) && sel.modified.Keys <= p.txs
    requires package !! InBlock(sel) && added <= package && InBlock(sel1) == InBlock(sel) + added
    requires sel1.modified == sel.modified - added
    ensures Faithful(p, sel1.(modified := Updated(p, sel1.modified, package, package)))
            <==> AllAbsorb(p, sel, package, added)
  {
    hide ValidPool, Covers, Absorbs, Unselected;
    var was, modified := InBlock(sel), Updated(p, sel1.modified, package, package);
    forall u | Affected(p, package, package, u)
      ensures u in modified && Recorded(p, sel1.modified, u) == Recorded(p, sel.modified, u)
      ensures Covers(p, was + added, u, modified[u])
              <==> Absorbs(p, was, package - added, u, Recorded(p, sel.modified, u))
    {
      UpdatedCoversIff(p, was, package, added, sel1.modified, u);
    }
    forall u | u in modified && !Affected(p, package, package, u) ensures Covers(p, was + added, u, modified[u]) {
      StillCovers(p, was, added, u, sel.modified[u]);
    }
  }

  // The side table stays faithful across a package exactly when everything that depends on it has room for the
  // part that was refused.
  lemma ConsiderIsFaithfulIff(p: Pool, maintenance: bool, sel: Selection, t: TxId, sorted: seq<TxId>)
    requires ValidPool(p) && ValidSelection(p, maintenance, sel) && Faithful(p, sel)
    requires t in p.txs - InBlock(sel) && IsSorting(p, Package(p, sel, t), sorted)
    ensures var added := Elems(sorted[..Accepted(p, maintenance, sel, sorted)]);
            Faithful(p, Consider(p, maintenance, sel, sorted)) <==> AllAbsorb(p, sel, Package(p, sel, t), added)
  {
    hide ValidPool, AddSorted, Faithful, AllAbsorb;
    var k := Accepted(p, maintenance, sel, sorted);
    AddSortedAdds(p, maintenance, sel, sorted);
    assert Elems(sorted[..k]) <= Elems(sorted);
    FaithfulAfterIff(p, sel, Package(p, sel, t), Elems(sorted[..k]), AddSorted(p, maintenance, sel, sorted).0);
  }

  // In particular when nothing outside the package depends on the refused part, as when nothing is refused.
  lemma ConsiderIsFaithful(p: Pool, maintenance: bool, sel: Selection, t: TxId, sorted: seq<TxId>)
    requires ValidPool(p) && ValidSelection(p, maintenance, sel) && Faithful(p, sel)
    requires t in p.txs - InBlock(sel) && IsSorting(p, Package(p, sel, t), sorted)
    requires forall u | u in p.txs - Elems(sorted) ::
               p.ancestors(u) !! Elems(sorted[Accepted(p, maintenance, sel, sorted)..])
    ensures Faithful(p, Consider(p, maintenance, sel, sorted))
  {
    hide ValidPool, Covers, Absorbs, AddSorted, WellOrdered, ExactCounters;
    var package, k := Package(p, sel, t), Accepted(p, maintenance, sel, sorted);
    assert sorted == sorted[..k] + sorted[k..];
    ElemsConcat(sorted[..k], sorted[k..]);
    NothingNeedsIt(p, sel, package, Elems(sorted[..k]));
    ConsiderIsFaithfulIff(p, maintenance, sel, t, sorted);
  }

  lemma NothingNeedsIt(p: Pool, sel: Selection, package: set<TxId>, added: set<TxId>)
    requires ValidPool(p) && Faithful(p, sel)
    requires forall u | u in p.txs - package :: p.ancestors(u) !! package - added
    ensures AllAbsorb(p, sel, package, added)
  {
    hide ValidPool, Covers, Absorbs;
    forall u | Affected(p, package, package, u)
      ensures Absorbs(p, InBlock(sel), package - added, u, Recorded(p, sel.modified, u))
    {
      if u !in sel.modified { CachedCovers(p, InBlock(sel), u); }
      NoneRefused(p, InBlock(sel), package - added, u, Recorded(p, sel.modified, u));
    }
  }

  lemma AddedWhole(p: Pool, maintenance: bool, sel: Selection, sorted: seq<TxId>)
    requires Accepted(p, maintenance, sel, sorted) == |sorted|
    ensures var sel' := AddSorted(p, maintenance, sel, sorted).0;
            && InBlock(sel') == InBlock(sel) + Elems(sorted)
            && sel'.modified == sel.modified - Elems(sorted)
  {
    AddSortedAdds(p, maintenance, sel, sorted);
    assert sorted[..|sorted|] == sorted;
  }

  // Across a package that is added whole, the side table also keeps listing every transaction it should.
  lemma ConsiderIsListed(p: Pool, maintenance: bool, sel: Selection, failed: set<TxId>, t: TxId, sorted: seq<TxId>)
    requires Listed(p, sel, failed) && IsSorting(p, Package(p, sel, t), sorted)
    requires Accepted(p, maintenance, sel, sorted) == |sorted|
    ensures Listed(p, Consider(p, maintenance, sel, sorted), failed)
    ensures InBlock(Consider(p, maintenance, sel, sorted)) == InBlock(sel) + Package(p, sel, t)
  {
    AddedWhole(p, maintenance, sel, sorted);
    var was, package := InBlock(sel), Package(p, sel, t);
    forall u | u in p.txs - (was + package) && p.ancestors(u) * (was + package) != {}
      ensures u in Consider(p, maintenance, sel, sorted).modified || u in failed
    {
      if !Affected(p, package, package, u) {
        assert p.ancestors(u) * was != {};
      }
    }
  }

  // What the test is given for a package, the modified totals or the cached ones, covers the package.
  lemma TestedTotalsCover(p: Pool, sel: Selection, t: TxId)
    requires ValidPool(p) && Faithful(p, sel) && t in p.txs - InBlock(sel)
    ensures Covers(p, InBlock(sel), t, Recorded(p, sel.modified, t))
    ensures Unselected(p, InBlock(sel), t) == Package(p, sel, t)
  {
    if t !in sel.modified { CachedCovers(p, InBlock(sel), t); }
  }

  ghost predicate WithinLimits(sel: Selection, blockMaxSize: nat) {
    sel.blockSize <= blockMaxSize && sel.blockSigOps <= MAX_BLOCK_SIGOPS
  }

  // A package that passed the test with totals that cover it leaves the block within its limits.
  lemma ConsiderIsWithinLimits(p: Pool, maintenance: bool, sel: Selection, blockMaxSize: nat, t: TxId, e: ModEntry,
      sorted: seq<TxId>)
    requires ValidPool(p) && ValidSelection(p, maintenance, sel)
    requires t in p.txs - InBlock(sel) && IsSorting(p, Package(p, sel, t), sorted)
    requires Covers(p, InBlock(sel), t, e) && TestPackage(sel, blockMaxSize, e.size, e.sigOps)
    ensures WithinLimits(Consider(p, maintenance, sel, sorted), blockMaxSize)
  {
    var sel', k := Consider(p, maintenance, sel, sorted), AddSorted(p, maintenance, sel, sorted).1;
    ConsiderIsValid(p, maintenance, sel, t, sorted);
    AddSortedAdds(p, maintenance, sel, sorted);
    assert Elems(sorted[..k]) <= Elems(sorted);
    TotalsAreNarrow(p, t);
    TestIsExact(p, maintenance, sel, blockMaxSize, t, e);
    SetTotalSubset(InBlock(sel'), InBlock(sel) + Package(p, sel, t), p.size);
    SetTotalSubset(InBlock(sel'), InBlock(sel) + Package(p, sel, t), p.sigOps);
  }

  lemma TestDoesNotWrap(sel: Selection, blockMaxSize: nat, size: nat, sigOps: nat)
    requires sel.blockSize + size < TWO_64 && sel.blockSigOps + sigOps < TWO_32
    ensures TestPackage(sel, blockMaxSize, size, sigOps)
       <==> sel.blockSize + size < blockMaxSize && sel.blockSigOps + sigOps < MAX_BLOCK_SIGOPS
  {
  }

  // The test does not wrap around, and speaks of at least what the package would add.
  lemma TestIsExact(p: Pool, maintenance: bool, sel: Selection, blockMaxSize: nat, t: TxId, e: ModEntry)
    requires IsNarrow(p) && ValidSelection(p, maintenance, sel) && t in p.txs - InBlock(sel)
    requires p.sizeWithAncestors(t) <= SetTotal(p.txs, p.size) && p.sigOpsWithAncestors(t) <= SetTotal(p.txs, p.sigOps)
    requires Covers(p, InBlock(sel), t, e) && TestPackage(sel, blockMaxSize, e.size, e.sigOps)
    ensures RESERVED_SIZE + SetTotal(InBlock(sel) + Package(p, sel, t), p.size) < blockMaxSize
    ensures RESERVED_SIGOPS + SetTotal(InBlock(sel) + Package(p, sel, t), p.sigOps) < MAX_BLOCK_SIGOPS
  {
    var was, package := InBlock(sel), Package(p, sel, t);
    assert Unselected(p, was, t) == package;
    assert was <= p.txs;
    SetTotalSubset(was, p.txs, p.size);
    SetTotalSubset(was, p.txs, p.sigOps);
    SetTotalUnion(was, package, p.size);
    SetTotalUnion(was, package, p.sigOps);
    TestDoesNotWrap(sel, blockMaxSize, e.size, e.sigOps);
  }

  /* ----- When a package is cut short ----- */

  ghost predicate EnoughSpace(p: Pool, maintenance: bool, used: nat, s: set<TxId>) {
    || Shielded(p, s) == {}
    || (!maintenance && used + SetTotal(Shielded(p, s), p.size) <= MAX_SHIELDED_SIZE)
  }

  lemma EnoughForFirst(p: Pool, maintenance: bool, sel: Selection, t: TxId, rest: set<TxId>)
    requires t !in rest
    ensures EnoughSpace(p, maintenance, sel.shieldedSize, rest + {t})
       <==> MayAdd(p, maintenance, sel, t) && EnoughSpace(p, maintenance, AddToBlock(p, sel, t).shieldedSize, rest)
  {
    if p.isShielded(t) {
      assert Shielded(p, rest + {t}) == Shielded(p, rest) + {t};
      SetTotalAdd(Shielded(p, rest), t, p.size);
    } else {
      assert Shielded(p, rest + {t}) == Shielded(p, rest);
    }
  }

  // A package is added whole exactly when it needs no shielded space, or there is enough of it outside maintenance.
  lemma {:induction false} AddedWholeIff(p: Pool, maintenance: bool, sel: Selection, sorted: seq<TxId>)
    requires forall i, j | 0 <= i < j < |sorted| :: sorted[i] != sorted[j]
    ensures AddSorted(p, maintenance, sel, sorted).1 == |sorted|
       <==> EnoughSpace(p, maintenance, sel.shieldedSize, Elems(sorted))
    decreases |sorted|
  {
    if sorted != [] {
      var t, rest := sorted[0], sorted[1..];
      assert Elems(sorted) == Elems(rest) + {t} by {
        assert sorted == [t] + rest;
        ElemsConcat([t], rest);
      }
      EnoughForFirst(p, maintenance, sel, t, Elems(rest));
      if MayAdd(p, maintenance, sel, t) {
        AddedWholeIff(p, maintenance, AddToBlock(p, sel, t), rest);
      }
    }
  }

  // With room for all shielded transactions of the mempool, no package is cut.
  lemma RoomForAll(p: Pool, maintenance: bool, sel: Selection, t: TxId, sorted: seq<TxId>)
    requires IsOrder(p) && ValidSelection(p, maintenance, sel) && EnoughSpace(p, maintenance, sel.carried, p.txs)
    requires t in p.txs - InBlock(sel) && IsSorting(p, Package(p, sel, t), sorted)
    ensures AddSorted(p, maintenance, sel, sorted).1 == |sorted|
  {
    hide AddSorted;
    var was, package := InBlock(sel), Package(p, sel, t);
    InBlockIsInPool(p, sel);
    assert package <= p.txs && package !! was;
    if Shielded(p, p.txs) == {} {
      assert Shielded(p, package) <= Shielded(p, p.txs);
    } else {
      SetTotalUnion(Shielded(p, was), Shielded(p, package), p.size);
      SetTotalSubset(Shielded(p, was) + Shielded(p, package), Shielded(p, p.txs), p.size);
    }
    AddedWholeIff(p, maintenance, sel, sorted);
  }
}
