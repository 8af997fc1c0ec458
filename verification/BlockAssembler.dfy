/**
 The block assembler. Its selection loop is proved against the value model of
 PackageSelection, for every order in which the mempool offers its entries and every
 choice between the mempool's next entry and the best modified one.
 */
module BlockAssembler {
  import opened Totals
  import opened PackageSelection
  import opened SelectionRuns

  /* ----- UpdatePackagesForAdded, one added transaction at a time ----- */

  lemma MinusTwice(e: ModEntry, s1: nat, g1: nat, s2: nat, g2: nat)
    ensures Minus(Minus(e, s1, g1), s2, g2) == Minus(e, s1 + s2, g1 + g2)
  {
  }

  lemma TakenOffTogether(p: Pool, e: ModEntry, hit: set<TxId>, t: TxId)
    requires t !in hit
    ensures Minus(Minus(e, SetTotal(hit, p.size), SetTotal(hit, p.sigOps)), p.size(t), p.sigOps(t))
         == Minus(e, SetTotal(hit + {t}, p.size), SetTotal(hit + {t}, p.sigOps))
  {
    hide Minus;
    SetTotalAdd(hit, t, p.size);
    SetTotalAdd(hit, t, p.sigOps);
    MinusTwice(e, SetTotal(hit, p.size), SetTotal(hit, p.sigOps), p.size(t), p.sigOps(t));
  }

  lemma UpdatedOneMoreAt(p: Pool, modified: map<TxId, ModEntry>, done: set<TxId>, t: TxId, skip: set<TxId>, u: TxId)
    requires t !in done && u in p.txs
    ensures var mid := Updated(p, modified, done, skip); var end := Updated(p, modified, done + {t}, skip);
            && (u in Updated(p, mid, {t}, skip) <==> u in end)
            && (u in end ==> Updated(p, mid, {t}, skip)[u] == end[u])
  {
    var hit, mid := p.ancestors(u) * done, Updated(p, modified, done, skip);
    if t in p.ancestors(u) {
      assert p.ancestors(u) * (done + {t}) == hit + {t};
      assert p.ancestors(u) * {t} == {t};
      SingleTotal(t, p.size);
      SingleTotal(t, p.sigOps);
      if hit == {} {
        assert hit + {t} == {t};
        assert Recorded(p, mid, u) == Recorded(p, modified, u);
      } else {
        TakenOffTogether(p, Recorded(p, modified, u), hit, t);
      }
    } else {
      assert p.ancestors(u) * (done + {t}) == hit;
      assert p.ancestors(u) * {t} == {};
    }
  }

  lemma UpdatedOneMore(p: Pool, modified: map<TxId, ModEntry>, done: set<TxId>, t: TxId, skip: set<TxId>)
    requires t !in done && modified.Keys <= p.txs
    ensures Updated(p, Updated(p, modified, done, skip), {t}, skip) == Updated(p, modified, done + {t}, skip)
  {
    hide Updated;
    var mid, end := Updated(p, modified, done, skip), Updated(p, modified, done + {t}, skip);
    UpdatedKeys(p, modified, done, skip);
    UpdatedKeys(p, mid, {t}, skip);
    UpdatedKeys(p, modified, done + {t}, skip);
    forall u | u in p.txs
      ensures (u in Updated(p, mid, {t}, skip) <==> u in end) && (u in end ==> Updated(p, mid, {t}, skip)[u] == end[u])
    {
      UpdatedOneMoreAt(p, modified, done, t, skip, u);
    }
  }

  lemma UpdatedKeys(p: Pool, modified: map<TxId, ModEntry>, added: set<TxId>, skip: set<TxId>)
    requires modified.Keys <= p.txs
    ensures Updated(p, modified, added, skip).Keys <= p.txs
  {
  }

  lemma UpdatedByNone(p: Pool, modified: map<TxId, ModEntry>, skip: set<TxId>)
    ensures Updated(p, modified, {}, skip) == modified
  {
    assert forall t :: !Affected(p, {}, skip, t);
  }

  lemma UpdatedByOne(p: Pool, modified: map<TxId, ModEntry>, t: TxId, skip: set<TxId>, m: map<TxId, ModEntry>)
    requires modified.Keys <= p.txs
    requires forall u | u in p.txs :: Affected(p, {t}, skip, u) ==>
             u in m && m[u] == Minus(Recorded(p, modified, u), p.size(t), p.sigOps(t))
    requires forall u | u in p.txs :: !Affected(p, {t}, skip, u) ==>
             (u in m <==> u in modified) && (u in m ==> m[u] == modified[u])
    requires m.Keys <= p.txs
    ensures m == Updated(p, modified, {t}, skip)
  {
    hide SetTotal, Minus, Recorded;
    SingleTotal(t, p.size);
    SingleTotal(t, p.sigOps);
    var updated := Updated(p, modified, {t}, skip);
    forall u ensures (u in m <==> u in updated) && (u in m ==> m[u] == updated[u]) {
      if u in p.txs && Affected(p, {t}, skip, u) { assert p.ancestors(u) * {t} == {t}; }
    }
  }

  class BlockAssembler {
    const pool: Pool
    const blockMaxSize: nat
    // Whether shielded transactions are suspended.
    const maintenance: bool
    // What earlier blocks of the same assembler left in nSizeShielded, which resetBlock does not touch.
    const carried: nat

    var vtx: seq<TxId>
    var inBlock: set<TxId>
    var nBlockTx: nat
    var nBlockSize: nat
    var nBlockSigOps: nat
    var nSizeShielded: nat

    ghost predicate Valid()
      reads this
    {
      inBlock == Elems(vtx) && nBlockTx == |vtx|
    }

    ghost function Model(modified: map<TxId, ModEntry>): Selection
      reads this
    {
      Selection(vtx, modified, nBlockSize, nBlockSigOps, nSizeShielded, carried)
    }

    // An assembler at the start of a block.
    constructor (pool: Pool, blockMaxSize: nat, maintenance: bool, carried: nat)
      ensures Valid() && Model(map[]) == Start(carried)
      ensures this.pool == pool && this.blockMaxSize == blockMaxSize && this.maintenance == maintenance
      ensures this.carried == carried
    {
      this.pool, this.blockMaxSize, this.maintenance, this.carried := pool, blockMaxSize, maintenance, carried;
      vtx, inBlock, nBlockTx, nBlockSize, nBlockSigOps := [], {}, 0, RESERVED_SIZE, RESERVED_SIGOPS;
      nSizeShielded := carried;
    }

    method OnlyUnconfirmed(testSet: set<TxId>) returns (r: set<TxId>)
      ensures r == testSet - inBlock
    {
      r := testSet;
      var left := testSet;
      while left != {}
        invariant left <= testSet
        invariant forall t :: t in r <==> t in testSet && (t in left || t !in inBlock)
      {
        var t :| t in left;
        if t in inBlock {
          r := r - {t};
        }
        left := left - {t};
      }
    }

    method TestPackageFinality(package: set<TxId>) returns (ok: bool)
      ensures ok <==> forall t | t in package :: pool.isFinal(t)
    {
      var left := package;
      while left != {}
        invariant left <= package
        invariant forall t | t in package - left :: pool.isFinal(t)
      {
        var t :| t in left;
        if !pool.isFinal(t) {
          return false;
        }
        left := left - {t};
      }
      return true;
    }

    // Sorted by ancestor count; the order of equal counts is left open.
    method SortForBlock(package: set<TxId>) returns (sorted: seq<TxId>)
      ensures IsSorting(pool, package, sorted)
    {
      sorted := [];
      var left := package;
      while left != {}
        invariant left <= package && Elems(sorted) == package - left
        invariant forall i, j | 0 <= i < j < |sorted| :: sorted[i] != sorted[j]
        invariant forall i, j | 0 <= i < j < |sorted| ::
                    pool.countWithAncestors(sorted[i]) <= pool.countWithAncestors(sorted[j])
        invariant forall i, t | 0 <= i < |sorted| && t in left ::
                    pool.countWithAncestors(sorted[i]) <= pool.countWithAncestors(t)
      {
        var t := Smallest(left);
        ElemsConcat(sorted, [t]);
        assert t !in sorted by { assert t !in Elems(sorted); }
        sorted := sorted + [t];
        left := left - {t};
      }
    }

    method Smallest(s: set<TxId>) returns (t: TxId)
      requires s != {}
      ensures t in s && forall u | u in s :: pool.countWithAncestors(t) <= pool.countWithAncestors(u)
    {
      t :| t in s;
      var left := s - {t};
      while left != {}
        invariant t in s && left <= s
        invariant forall u | u in s - left :: pool.countWithAncestors(t) <= pool.countWithAncestors(u)
      {
        var u :| u in left;
        if pool.countWithAncestors(u) < pool.countWithAncestors(t) {
          t := u;
        }
        left := left - {u};
      }
    }

    method AddToBlock(t: TxId)
      requires Valid()
      modifies this
      ensures Valid()
      ensures vtx == old(vtx) + [t] && nBlockSize == old(nBlockSize) + pool.size(t)
      ensures nBlockSigOps == old(nBlockSigOps) + pool.sigOps(t) && nSizeShielded == old(nSizeShielded)
    {
      ElemsConcat(vtx, [t]);
      vtx := vtx + [t];
      nBlockSize := nBlockSize + pool.size(t);
      nBlockTx := nBlockTx + 1;
      nBlockSigOps := nBlockSigOps + pool.sigOps(t);
      inBlock := inBlock + {t};
    }

    // The inner loop of UpdatePackagesForAdded.
    method UpdateDescendants(t: TxId, alreadyAdded: set<TxId>, modified: map<TxId, ModEntry>)
        returns (m: map<TxId, ModEntry>)
      requires t in alreadyAdded && modified.Keys <= pool.txs
      ensures m == Updated(pool, modified, {t}, alreadyAdded)
    {
      m := modified;
      var descendants := set d | d in pool.txs && (d == t || t in pool.ancestors(d));
      var left := descendants;
      while left != {}
        invariant left <= descendants && m.Keys <= pool.txs
        invariant forall u | u in descendants - left && Affected(pool, {t}, alreadyAdded, u) ::
                    u in m && m[u] == Minus(Recorded(pool, modified, u), pool.size(t), pool.sigOps(t))
        invariant forall u | u in pool.txs && (u in left || !Affected(pool, {t}, alreadyAdded, u)) ::
                    (u in m <==> u in modified) && (u in m ==> m[u] == modified[u])
      {
        var d :| d in left;
        if d !in alreadyAdded {
          assert t in pool.ancestors(d) * {t};
          m := m[d := Minus(Recorded(pool, m, d), pool.size(t), pool.sigOps(t))];
        }
        left := left - {d};
      }
      UpdatedByOne(pool, modified, t, alreadyAdded, m);
    }

    method UpdatePackagesForAdded(alreadyAdded: set<TxId>, modified: map<TxId, ModEntry>)
        returns (m: map<TxId, ModEntry>)
      requires modified.Keys <= pool.txs
      ensures m == Updated(pool, modified, alreadyAdded, alreadyAdded)
    {
      m := modified;
      var left := alreadyAdded;
      UpdatedByNone(pool, modified, alreadyAdded);
      while left != {}
        invariant left <= alreadyAdded
        invariant m == Updated(pool, modified, alreadyAdded - left, alreadyAdded)
      {
        var t :| t in left;
        m := UpdateDescendants(t, alreadyAdded, m);
        UpdatedOneMore(pool, modified, alreadyAdded - left, t, alreadyAdded);
        assert alreadyAdded - (left - {t}) == alreadyAdded - left + {t};
        left := left - {t};
      }
      assert alreadyAdded - left == alreadyAdded;
    }

    // Adds a sorted package up to the first shielded transaction that is refused.
    method AddPackage(sorted: seq<TxId>, modified: map<TxId, ModEntry>) returns (m: map<TxId, ModEntry>, added: nat)
      requires Valid()
      modifies this
      ensures Valid()
      ensures (Model(m), added) == AddSorted(pool, maintenance, old(Model(modified)), sorted)
    {
      hide AddFrom, AddSorted;
      m, added := modified, 0;
      AddFromEnds(pool, maintenance, Model(m), sorted);
      while added < |sorted|
        invariant Valid() && added <= |sorted|
        invariant AddFrom(pool, maintenance, Model(m), sorted, added)
                  == AddSorted(pool, maintenance, old(Model(modified)), sorted)
      {
        var t := sorted[added];
        AddFromNext(pool, maintenance, Model(m), sorted, added);
        if pool.isShielded(t) {
          if maintenance {
            return;
          }
          if nSizeShielded + pool.size(t) > MAX_SHIELDED_SIZE {
            return;
          }
          nSizeShielded := nSizeShielded + pool.size(t);
        }
        AddToBlock(t);
        m := m - {t};
        added := added + 1;
      }
      AddFromEnds(pool, maintenance, Model(m), sorted);
    }

    // Adds a package that passed the tests, sorted, and updates the side table.
    method AddTested(t: TxId, package: set<TxId>, modified: map<TxId, ModEntry>)
      returns (m: map<TxId, ModEntry>, added: nat, ghost sorted: seq<TxId>)
      requires Valid() && modified.Keys <= pool.txs && package == Package(pool, Model(modified), t)
      modifies this
      ensures Valid() && IsSorting(pool, package, sorted)
      ensures Model(m) == Consider(pool, maintenance, old(Model(modified)), sorted)
      ensures added == Accepted(pool, maintenance, old(Model(modified)), sorted)
    {
      hide AddSorted, Updated;
      var order := SortForBlock(package);
      sorted := order;
      AddSortedAdds(pool, maintenance, Model(modified), sorted);
      m, added := AddPackage(order, modified);
      m := UpdatePackagesForAdded(package, m);
    }

    // The loop's state, and what it runs on.
    ghost function State(modified: map<TxId, ModEntry>, mi: nat, failed: set<TxId>): Progress
      reads this
    {
      Progress(Model(modified), mi, failed)
    }

    ghost function Task(order: seq<TxId>): Setting {
      Setting(pool, maintenance, blockMaxSize, order, carried)
    }

    // The turn of a package, from the test of its totals on.
    method TryPackage(t: TxId, modified: map<TxId, ModEntry>, ghost order: seq<TxId>)
      returns (rejected: bool, m: map<TxId, ModEntry>, added: nat, ghost sorted: seq<TxId>)
      requires Valid() && modified.Keys <= pool.txs
      modifies this
      ensures Valid() && (rejected <==> !Passes(Task(order), old(Model(modified)), t))
      ensures var e := if t in modified then modified[t]
                       else ModEntry(pool.sizeWithAncestors(t), pool.sigOpsWithAncestors(t));
              rejected <==> || (old(nBlockSize) + e.size) % 0x1_0000_0000_0000_0000 >= blockMaxSize
                            || (old(nBlockSigOps) + e.sigOps) % 0x1_0000_0000 >= MAX_BLOCK_SIGOPS
                            || !pool.isFinal(t)
                            || exists a | a in pool.ancestors(t) && a !in old(vtx) :: !pool.isFinal(a)
      ensures rejected ==> Model(m) == old(Model(modified))
      ensures !rejected ==>
                && IsSorting(pool, Package(pool, old(Model(modified)), t), sorted)
                && Model(m) == Consider(pool, maintenance, old(Model(modified)), sorted)
                && added == Accepted(pool, maintenance, old(Model(modified)), sorted)
    {
      hide IsSorting, Consider, PackageSelection.TestPackage;
      m, added, sorted := modified, 0, [];
      PassesIff(Task(order), Model(modified), t);
      var entry := Recorded(pool, modified, t);
      rejected := !TestPackage(Selection(vtx, modified, nBlockSize, nBlockSigOps, nSizeShielded, carried), blockMaxSize,
          entry.size, entry.sigOps);
      if rejected {
        return;
      }
      var ancestors := OnlyUnconfirmed(pool.ancestors(t));
      ancestors := ancestors + {t};
      assert ancestors == Package(pool, Model(modified), t);
      var allFinal := TestPackageFinality(ancestors);
      rejected := !allFinal;
      if rejected {
        return;
      }
      m, added, sorted := AddTested(t, ancestors, modified);
    }

    // The body of the selection loop: skips a stale entry, or picks a transaction and gives its package a turn.
    // Which of the two scores higher is left open, and so is whether the fees fall below the relay minimum.
    method NextTurn(order: seq<TxId>, mi: nat, modified: map<TxId, ModEntry>, failed: set<TxId>)
      returns (mi': nat, m: map<TxId, ModEntry>, f: set<TxId>, stalled: bool, finished: bool, ghost step: Step)
      requires Valid() && modified.Keys <= pool.txs - inBlock
      requires mi <= |order| && (mi < |order| || modified != map[])
      modifies this
      ensures Valid()
      ensures finished ==> Model(m) == old(Model(modified)) && m == modified
      ensures !finished ==>
                && Enabled(Task(order), old(State(modified, mi, failed)), step)
                && State(m, mi', f) == Apply(Task(order), old(State(modified, mi, failed)), step)
                && (stalled <==> Stalls(Task(order), old(State(modified, mi, failed)), step))
    {
      hide IsSorting, Consider, Passes, AddSorted;
      mi', m, f, stalled, finished, step := mi, modified, failed, false, false, Skip;
      if mi < |order| && (order[mi] in modified || order[mi] in inBlock || order[mi] in failed) {
        mi' := mi + 1;
        return;
      }
      var usingModified: bool := *;
      usingModified := modified != map[] && (mi == |order| || usingModified);
      var t;
      if usingModified {
        t :| t in modified;
      } else {
        t := order[mi];
        mi' := mi + 1;
      }
      assert t !in inBlock;
      finished := *;
      if finished {
        return;
      }
      var rejected, added;
      ghost var sorted;
      ghost var before := Model(modified);
      rejected, m, added, sorted := TryPackage(t, modified, order);
      step := Take(t, usingModified, sorted);
      stalled := usingModified && !rejected && added == 0;
      if rejected && usingModified {
        m, f := modified - {t}, failed + {t};
      }
      if !rejected { NoneAccepted(pool, maintenance, before, t, sorted); }
    }

    // The selection loop. It runs on as long as a turn stalls at most `turns` times, however many those are.
    // It also ends, early, when the fees of a package are below the relay minimum.
    method AddPackageTxs(order: seq<TxId>, turns: nat)
        returns (gaveUp: bool, belowMinimum: bool, ghost steps: seq<Step>)
      requires ValidPool(pool) && Valid() && Model(map[]) == Start(carried) && carried <= MAX_SHIELDED_SIZE
      requires forall t | t in order :: t in pool.txs
      requires RESERVED_SIZE <= blockMaxSize
      modifies this
      ensures Valid() && ValidSelection(pool, maintenance, Model(map[]))
      ensures forall t | t in vtx :: pool.isFinal(t)
      ensures IsRun(Task(order), steps) &&
              Model(After(Task(order), steps).sel.modified) == After(Task(order), steps).sel
      ensures steps == [] || Leakless(Task(order), steps[..|steps| - 1]) ==> WithinLimits(Model(map[]), blockMaxSize)
      ensures Stallless(Task(order), steps) ==> !gaveUp && |steps| <= Rank(Task(order), Begin(Task(order)))
      ensures Harmless(Task(order)) ==> !gaveUp && WithinLimits(Model(map[]), blockMaxSize)
      ensures !gaveUp && !belowMinimum ==> forall t | t in order :: t in vtx || Refused(Task(order), steps, t)
    {
      hide ValidPool, ValidSelection, WithinLimits, Updated, Enabled, Apply, Stalls, Rank, Harmless, Sound, Leakless,
           Stallless, Refused;
      var failed: set<TxId> := {};
      var modified := UpdatePackagesForAdded(inBlock, map[]);
      assert inBlock == {};
      UpdatedByNone(pool, map[], {});
      var mi: nat, budget := 0, turns;
      gaveUp, belowMinimum, steps := false, false, [];
      ghost var g := Task(order);
      RunIsSound(g, steps);
      while mi < |order| || modified != map[]
        invariant Valid() && IsRun(g, steps) && State(modified, mi, failed) == After(g, steps)
        invariant Sound(g, After(g, steps)) && mi <= |order| && !gaveUp && !belowMinimum
        decreases budget, Rank(g, After(g, steps))
      {
        ghost var s := After(g, steps);
        SoundTable(g, s);
        var finished, stalled;
        ghost var step;
        mi, modified, failed, stalled, finished, step := NextTurn(order, mi, modified, failed);
        if finished {
          belowMinimum := true;
          break;
        }
        OneMore(g, steps, step);
        StepIsSound(g, s, step);
        SoundTable(g, Apply(g, s, step));
        if stalled {
          StallShows(g, steps, step);
        } else {
          StepLowersRank(g, s, step);
        }
        steps := steps + [step];
        if stalled {
          if budget == 0 {
            gaveUp := true;
            break;
          }
          budget := budget - 1;
        }
      }
      RunIsSummed(g, steps);
      if !gaveUp && !belowMinimum {
        forall t | t in order ensures t in vtx || Refused(g, steps, t) {
          NothingIsOverlooked(g, steps, t);
        }
      }
      DropTable(pool, maintenance, Model(modified));
    }
  }

  // A turn adds nothing exactly when the first transaction of its package is refused.
  lemma NoneAccepted(p: Pool, maintenance: bool, sel: Selection, t: TxId, sorted: seq<TxId>)
    requires IsSorting(p, Package(p, sel, t), sorted)
    ensures sorted != [] && (Accepted(p, maintenance, sel, sorted) == 0 <==> !MayAdd(p, maintenance, sel, sorted[0]))
  {
    assert t in Elems(sorted);
    AddSortedAdds(p, maintenance, sel, sorted);
  }

  lemma SoundTable(g: Setting, s: Progress)
    requires Sound(g, s)
    ensures s.sel.modified.Keys <= g.pool.txs - InBlock(s.sel) && s.mi <= |g.order|
  {
  }

  lemma StallShows(g: Setting, steps: seq<Step>, step: Step)
    requires Stalls(g, After(g, steps), step)
    ensures !Stallless(g, steps + [step])
  {
    hide Stalls, After;
    var longer := steps + [step];
    assert longer[..|steps|] == steps && longer[|steps|] == step;
  }

  // What the theorems about runs say of the one that was followed.
  lemma RunIsSummed(g: Setting, steps: seq<Step>)
    requires IsSetting(g) && IsRun(g, steps)
    ensures ValidSelection(g.pool, g.maintenance, After(g, steps).sel)
    ensures forall t | t in After(g, steps).sel.block :: g.pool.isFinal(t)
    ensures steps == [] || Leakless(g, steps[..|steps| - 1]) ==> WithinLimits(After(g, steps).sel, g.blockMaxSize)
    ensures Stallless(g, steps) ==> |steps| <= Rank(g, Begin(g))
    ensures Harmless(g) ==> Stallless(g, steps) && WithinLimits(After(g, steps).sel, g.blockMaxSize)
  {
    hide IsSetting, IsRun, After, Leakless, Stallless, Rank, Harmless, WithinLimits, ValidSelection;
    RunIsSound(g, steps);
    if steps == [] || Leakless(g, steps[..|steps| - 1]) { RunIsWithinLimits(g, steps); }
    if Stallless(g, steps) { RunIsShort(g, steps); }
    if Harmless(g) { HarmlessRun(g, steps); }
  }

  // What is left to do of a package from its i-th transaction on.
  function AddFrom(p: Pool, maintenance: bool, sel: Selection, sorted: seq<TxId>, i: nat): (Selection, nat)
    requires i <= |sorted|
  {
    var (r, k) := AddSorted(p, maintenance, sel, sorted[i..]);
    (r, i + k)
  }

  lemma AddFromEnds(p: Pool, maintenance: bool, sel: Selection, sorted: seq<TxId>)
    ensures AddFrom(p, maintenance, sel, sorted, 0) == AddSorted(p, maintenance, sel, sorted)
    ensures AddFrom(p, maintenance, sel, sorted, |sorted|) == (sel, |sorted|)
  {
    assert sorted[0..] == sorted;
  }

  lemma AddFromNext(p: Pool, maintenance: bool, sel: Selection, sorted: seq<TxId>, i: nat)
    requires i < |sorted|
    ensures AddFrom(p, maintenance, sel, sorted, i)
         == if MayAdd(p, maintenance, sel, sorted[i])
             then AddFrom(p, maintenance, AddToBlock(p, sel, sorted[i]), sorted, i + 1)
            else (sel, i)
  {
    assert sorted[i..][1..] == sorted[i + 1..];
  }

  lemma DropTable(p: Pool, maintenance: bool, sel: Selection)
    requires ValidSelection(p, maintenance, sel)
    ensures ValidSelection(p, maintenance, sel.(modified := map[]))
    ensures forall max | WithinLimits(sel, max) :: WithinLimits(sel.(modified := map[]), max)
  {
  }
}
