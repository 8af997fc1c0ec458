/**
 Runs of the selection loop of the block assembler: every order in which the mempool offers its
 entries, every choice between the next entry and the side table, every sorting of a package.
 Which steps let the block outgrow its limits later, and which keep the loop from ending.
 */
module SelectionRuns {
  import opened Totals
  import opened PackageSelection

  // The entries of `order` are the mempool by ancestor score.
  datatype Setting = Setting(pool: Pool, maintenance: bool, blockMaxSize: nat, order: seq<TxId>, carried: nat)

  datatype Progress = Progress(sel: Selection, mi: nat, failed: set<TxId>)

  // Skip a stale entry, or take a transaction and give its package a turn.
  datatype Step = Skip | Take(t: TxId, fromTable: bool, sorted: seq<TxId>)

  function Begin(g: Setting): Progress { Progress(Start(g.carried), 0, {}) }

  ghost predicate IsSetting(g: Setting) {
    && ValidPool(g.pool) && RESERVED_SIZE <= g.blockMaxSize && g.carried <= MAX_SHIELDED_SIZE
    && forall t | t in g.order :: t in g.pool.txs
  }

  predicate Stale(g: Setting, s: Progress)
    requires s.mi < |g.order|
  {
    g.order[s.mi] in s.sel.modified || g.order[s.mi] in InBlock(s.sel) || g.order[s.mi] in s.failed
  }

  // Which of the two candidates scores higher is left open.
  ghost predicate Enabled(g: Setting, s: Progress, step: Step) {
    match step
    case Skip => s.mi < |g.order| && Stale(g, s)
    case Take(t, fromTable, sorted) =>
      && (s.mi < |g.order| ==> !Stale(g, s))
      && (if fromTable then t in s.sel.modified else s.mi < |g.order| && t == g.order[s.mi])
      && (Passes(g, s.sel, t) ==> IsSorting(g.pool, Package(g.pool, s.sel, t), sorted))
  }

  ghost predicate Passes(g: Setting, sel: Selection, t: TxId) {
    var e := Recorded(g.pool, sel.modified, t);
    TestPackage(sel, g.blockMaxSize, e.size, e.sigOps) && forall u | u in Package(g.pool, sel, t) :: g.pool.isFinal(u)
  }

  // The two tests of the source, written out in its widths.
  lemma PassesIff(g: Setting, sel: Selection, t: TxId)
    ensures Passes(g, sel, t)
       <==> var size := if t in sel.modified then sel.modified[t].size else g.pool.sizeWithAncestors(t);
            var sigOps := if t in sel.modified then sel.modified[t].sigOps else g.pool.sigOpsWithAncestors(t);
            && (sel.blockSize + size) % 0x1_0000_0000_0000_0000 < g.blockMaxSize
            && (sel.blockSigOps + sigOps) % 0x1_0000_0000 < MAX_BLOCK_SIGOPS
            && g.pool.isFinal(t) && forall a | a in g.pool.ancestors(t) && a !in sel.block :: g.pool.isFinal(a)
  {
    var package := Package(g.pool, sel, t);
    assert t in package && forall a | a in g.pool.ancestors(t) && a !in sel.block :: a in package;
  }

  ghost function Apply(g: Setting, s: Progress, step: Step): Progress {
    match step
    case Skip => s.(mi := s.mi + 1)
    case Take(t, fromTable, sorted) =>
      var mi := if fromTable then s.mi else s.mi + 1;
      if Passes(g, s.sel, t) then Progress(Consider(g.pool, g.maintenance, s.sel, sorted), mi, s.failed)
      else if fromTable then Progress(s.sel.(modified := s.sel.modified - {t}), mi, s.failed + {t})
      else s.(mi := mi)
  }

  ghost function After(g: Setting, steps: seq<Step>): Progress {
    if steps == [] then Begin(g) else Apply(g, After(g, steps[..|steps| - 1]), steps[|steps| - 1])
  }

  ghost predicate IsRun(g: Setting, steps: seq<Step>) {
    steps == [] || (IsRun(g, steps[..|steps| - 1]) && Enabled(g, After(g, steps[..|steps| - 1]), steps[|steps| - 1]))
  }

  lemma OneMore(g: Setting, steps: seq<Step>, step: Step)
    ensures After(g, steps + [step]) == Apply(g, After(g, steps), step)
    ensures IsRun(g, steps + [step]) <==> IsRun(g, steps) && Enabled(g, After(g, steps), step)
  {
    hide Apply, Enabled;
    var longer := steps + [step];
    assert longer[..|longer| - 1] == steps;
  }

  /* ----- What every step keeps ----- */

  ghost predicate Sound(g: Setting, s: Progress) {
    && ValidSelection(g.pool, g.maintenance, s.sel) && s.mi <= |g.order| && s.sel.carried == g.carried
    && (forall t | t in s.sel.block :: g.pool.isFinal(t))
    && (forall t | t in s.sel.modified :: g.pool.ancestors(t) != {})
  }

  lemma TakenIsOutside(g: Setting, s: Progress, step: Step)
    requires IsSetting(g) && Sound(g, s) && Enabled(g, s, step) && step.Take?
    ensures step.t in g.pool.txs - InBlock(s.sel)
    ensures Passes(g, s.sel, step.t) ==> step.sorted != []
  {
    hide ValidPool, WellOrdered, ExactCounters, Passes;
    if !step.fromTable { assert step.t in g.order; }
    if Passes(g, s.sel, step.t) { assert step.t in Elems(step.sorted); }
  }

  lemma ConsiderKeepsKeys(p: Pool, maintenance: bool, sel: Selection, sorted: seq<TxId>, t: TxId)
    requires t in Consider(p, maintenance, sel, sorted).modified
    ensures t in sel.modified || p.ancestors(t) != {}
  {
    AddSortedAdds(p, maintenance, sel, sorted);
  }

  lemma ConsiderAddsPackage(p: Pool, maintenance: bool, sel: Selection, t: TxId, sorted: seq<TxId>)
    requires IsSorting(p, Package(p, sel, t), sorted)
    ensures forall u | u in Consider(p, maintenance, sel, sorted).block :: u in sel.block || u in Package(p, sel, t)
  {
    AddSortedAdds(p, maintenance, sel, sorted);
    assert forall u | u in sorted :: u in Elems(sorted);
  }

  lemma DropFromTable(p: Pool, maintenance: bool, sel: Selection, failed: set<TxId>, t: TxId)
    requires ValidSelection(p, maintenance, sel)
    ensures ValidSelection(p, maintenance, sel.(modified := sel.modified - {t}))
    ensures Listed(p, sel, failed) ==> Listed(p, sel.(modified := sel.modified - {t}), failed + {t})
  {
  }

  lemma StepIsSound(g: Setting, s: Progress, step: Step)
    requires IsSetting(g) && Sound(g, s) && Enabled(g, s, step)
    ensures Sound(g, Apply(g, s, step))
  {
    hide ValidPool, WellOrdered, ExactCounters, Consider, Passes;
    if step.Take? {
      TakenIsOutside(g, s, step);
      if Passes(g, s.sel, step.t) {
        ConsiderIsValid(g.pool, g.maintenance, s.sel, step.t, step.sorted);
        ConsiderAddsPackage(g.pool, g.maintenance, s.sel, step.t, step.sorted);
        PassesIff(g, s.sel, step.t);
        forall t | t in Consider(g.pool, g.maintenance, s.sel, step.sorted).modified ensures g.pool.ancestors(t) != {} {
          ConsiderKeepsKeys(g.pool, g.maintenance, s.sel, step.sorted, t);
        }
      } else {
        DropFromTable(g.pool, g.maintenance, s.sel, s.failed, step.t);
      }
    }
  }

  lemma BeginIsSound(g: Setting)
    requires IsSetting(g)
    ensures Sound(g, Begin(g)) && Faithful(g.pool, Start(g.carried)) && Listed(g.pool, Start(g.carried), {})
    ensures WithinLimits(Start(g.carried), g.blockMaxSize)
  {
    hide ValidPool;
    assert InBlock(Start(g.carried)) == {} && Shielded(g.pool, {}) == {};
  }

  lemma SoundIsFinal(g: Setting, s: Progress)
    requires Sound(g, s)
    ensures forall t | t in s.sel.block :: g.pool.isFinal(t)
  {
  }

  // The block is validly ordered after every run, whatever was cut.
  lemma {:induction false} RunIsSound(g: Setting, steps: seq<Step>)
    requires IsSetting(g) && IsRun(g, steps)
    ensures Sound(g, After(g, steps))
    ensures forall t | t in After(g, steps).sel.block :: g.pool.isFinal(t)
  {
    hide IsSetting, Sound, Enabled, Apply;
    if steps == [] {
      BeginIsSound(g);
    } else {
      RunIsSound(g, steps[..|steps| - 1]);
      StepIsSound(g, After(g, steps[..|steps| - 1]), steps[|steps| - 1]);
    }
    SoundIsFinal(g, After(g, steps));
  }

  /* ----- The limits of the block ----- */

  // A package was refused in part, and a transaction that depends on the refused part has a record without room
  // for it.
  ghost predicate Leaks(g: Setting, s: Progress, step: Step) {
    && step.Take? && Passes(g, s.sel, step.t)
    && !AllAbsorb(g.pool, s.sel, Elems(step.sorted),
                  Elems(step.sorted[..Accepted(g.pool, g.maintenance, s.sel, step.sorted)]))
  }

  // A step keeps the side table faithful exactly when it does not leak.
  lemma StepIsFaithfulIff(g: Setting, s: Progress, step: Step)
    requires IsSetting(g) && Sound(g, s) && Enabled(g, s, step) && Faithful(g.pool, s.sel)
    ensures Faithful(g.pool, Apply(g, s, step).sel) <==> !Leaks(g, s, step)
  {
    hide ValidPool, WellOrdered, ExactCounters, Covers, Consider, AllAbsorb, AddSorted;
    if step.Take? {
      TakenIsOutside(g, s, step);
      if Passes(g, s.sel, step.t) {
        ConsiderIsFaithfulIff(g.pool, g.maintenance, s.sel, step.t, step.sorted);
      }
    }
  }

  // From a faithful table even a leaking step stays within the limits: it is later ones that do not.
  lemma StepIsWithinLimits(g: Setting, s: Progress, step: Step)
    requires IsSetting(g) && Sound(g, s) && Enabled(g, s, step)
    requires Faithful(g.pool, s.sel) && WithinLimits(s.sel, g.blockMaxSize)
    ensures WithinLimits(Apply(g, s, step).sel, g.blockMaxSize)
  {
    hide ValidPool, WellOrdered, ExactCounters, Covers, Consider, PackageSelection.TestPackage;
    if step.Take? && Passes(g, s.sel, step.t) {
      TakenIsOutside(g, s, step);
      TestedTotalsCover(g.pool, s.sel, step.t);
      ConsiderIsWithinLimits(g.pool, g.maintenance, s.sel, g.blockMaxSize, step.t,
          Recorded(g.pool, s.sel.modified, step.t), step.sorted);
    }
  }

  ghost predicate Leakless(g: Setting, steps: seq<Step>) {
    forall i | 0 <= i < |steps| :: !Leaks(g, After(g, steps[..i]), steps[i])
  }

  lemma LeaklessPrefix(g: Setting, steps: seq<Step>, k: nat)
    requires k <= |steps| && Leakless(g, steps)
    ensures Leakless(g, steps[..k])
  {
    hide Leaks, After;
    forall i | 0 <= i < k ensures !Leaks(g, After(g, steps[..k][..i]), steps[..k][i]) {
      assert steps[..k][..i] == steps[..i];
    }
  }

  lemma {:induction false} RunIsFaithful(g: Setting, steps: seq<Step>)
    requires IsSetting(g) && IsRun(g, steps) && Leakless(g, steps)
    ensures Faithful(g.pool, After(g, steps).sel)
  {
    hide IsSetting, Sound, Enabled, Apply, Faithful, Leaks;
    if steps == [] {
      BeginIsSound(g);
    } else {
      var n := |steps| - 1;
      LeaklessPrefix(g, steps, n);
      RunIsFaithful(g, steps[..n]);
      RunIsSound(g, steps[..n]);
      StepIsFaithfulIff(g, After(g, steps[..n]), steps[n]);
    }
  }

  // The limits hold after every run in which no step but the last leaks.
  lemma {:induction false} RunIsWithinLimits(g: Setting, steps: seq<Step>)
    requires IsSetting(g) && IsRun(g, steps) && (steps != [] ==> Leakless(g, steps[..|steps| - 1]))
    ensures WithinLimits(After(g, steps).sel, g.blockMaxSize)
  {
    hide IsSetting, Sound, Enabled, Apply, Faithful, Leaks, Leakless, WithinLimits;
    if steps == [] {
      BeginIsSound(g);
    } else {
      var before := steps[..|steps| - 1];
      if before != [] { LeaklessPrefix(g, before, |before| - 1); }
      RunIsWithinLimits(g, before);
      RunIsFaithful(g, before);
      RunIsSound(g, before);
      StepIsWithinLimits(g, After(g, before), steps[|steps| - 1]);
    }
  }

  /* ----- The records of the side table ----- */

  ghost predicate Cuts(g: Setting, s: Progress, step: Step) {
    step.Take? && Passes(g, s.sel, step.t) && Accepted(g.pool, g.maintenance, s.sel, step.sorted) < |step.sorted|
  }

  // While no package is cut, every transaction with ancestors in the block has a record or has failed.
  lemma {:induction false} RunIsListed(g: Setting, steps: seq<Step>)
    requires IsSetting(g) && IsRun(g, steps)
    requires forall i | 0 <= i < |steps| :: !Cuts(g, After(g, steps[..i]), steps[i])
    ensures Listed(g.pool, After(g, steps).sel, After(g, steps).failed)
  {
    hide IsSetting, Sound, Enabled, Apply, Listed, Cuts;
    if steps == [] {
      BeginIsSound(g);
    } else {
      var before := steps[..|steps| - 1];
      forall i | 0 <= i < |before| ensures !Cuts(g, After(g, before[..i]), before[i]) {
        assert before[..i] == steps[..i];
      }
      RunIsListed(g, before);
      RunIsSound(g, before);
      StepIsListed(g, After(g, before), steps[|steps| - 1]);
    }
  }

  lemma StepIsListed(g: Setting, s: Progress, step: Step)
    requires IsSetting(g) && Sound(g, s) && Enabled(g, s, step) && !Cuts(g, s, step) && Listed(g.pool, s.sel, s.failed)
    ensures Listed(g.pool, Apply(g, s, step).sel, Apply(g, s, step).failed)
  {
    hide IsSetting, Consider, Passes, Listed, IsSorting, AddSorted;
    if step.Take? {
      if Passes(g, s.sel, step.t) {
        ConsiderIsListed(g.pool, g.maintenance, s.sel, s.failed, step.t, step.sorted);
      } else {
        DropFromTable(g.pool, g.maintenance, s.sel, s.failed, step.t);
      }
    }
  }

  /* ----- The end of the loop ----- */

  // A record of the side table passes the tests and its first transaction is refused: it is neither added nor erased.
  ghost predicate Stalls(g: Setting, s: Progress, step: Step) {
    && step.Take? && step.fromTable && step.sorted != [] && Passes(g, s.sel, step.t)
    && !MayAdd(g.pool, g.maintenance, s.sel, step.sorted[0])
  }

  // The block grew, or else the mempool's entries advanced, or else the side table shrank.
  ghost predicate Lowers(g: Setting, s: Progress, s': Progress) {
    || |g.pool.txs - InBlock(s'.sel)| < |g.pool.txs - InBlock(s.sel)|
    || (InBlock(s'.sel) == InBlock(s.sel) && s.mi < s'.mi)
    || (InBlock(s'.sel) == InBlock(s.sel) && s.mi == s'.mi && |s'.sel.modified| < |s.sel.modified|)
  }

  lemma SmallerTable(modified: map<TxId, ModEntry>, t: TxId)
    requires t in modified
    ensures |modified - {t}| < |modified|
  {
    assert (modified - {t}).Keys == modified.Keys - {t};
  }

  lemma AcceptedAdds(p: Pool, maintenance: bool, sel: Selection, t: TxId, sorted: seq<TxId>)
    requires ValidPool(p) && t in p.txs - InBlock(sel) && IsSorting(p, Package(p, sel, t), sorted)
    requires sorted != [] && MayAdd(p, maintenance, sel, sorted[0])
    ensures |p.txs - InBlock(Consider(p, maintenance, sel, sorted))| < |p.txs - InBlock(sel)|
  {
    hide AddSorted, MayAdd, ExactTotals, IsNarrow, Updated;
    var sel', k := AddSorted(p, maintenance, sel, sorted).0, AddSorted(p, maintenance, sel, sorted).1;
    AddSortedAdds(p, maintenance, sel, sorted);
    assert sorted[0] in Elems(sorted[..k]) && sorted[0] in Elems(sorted) by { assert sorted[..k][0] == sorted[0]; }
    assert sorted[0] in p.txs - InBlock(sel);
    ProperSubsetIsSmaller(p.txs - InBlock(sel'), p.txs - InBlock(sel));
  }

  lemma RefusedAddsNothing(p: Pool, maintenance: bool, sel: Selection, sorted: seq<TxId>)
    requires sorted != [] && !MayAdd(p, maintenance, sel, sorted[0])
    ensures var sel' := Consider(p, maintenance, sel, sorted);
            InBlock(sel') == InBlock(sel) && |sel.modified| <= |sel'.modified|
  {
    var package := Elems(sorted);
    assert AddSorted(p, maintenance, sel, sorted) == (sel, 0);
    KeysGrow(p, sel.modified, package);
  }

  lemma KeysGrow(p: Pool, modified: map<TxId, ModEntry>, package: set<TxId>)
    ensures |modified| <= |Updated(p, modified, package, package)|
  {
    hide Affected, Minus, Recorded;
    SubsetIsNoLarger(modified.Keys, Updated(p, modified, package, package).Keys);
  }

  // A step lowers the measure of the loop exactly when it does not stall.
  lemma StepLowersIff(g: Setting, s: Progress, step: Step)
    requires IsSetting(g) && Sound(g, s) && Enabled(g, s, step)
    ensures Lowers(g, s, Apply(g, s, step)) <==> !Stalls(g, s, step)
  {
    hide ValidPool, WellOrdered, ExactCounters, Consider, Passes, MayAdd;
    if step.Take? {
      TakenIsOutside(g, s, step);
      if Passes(g, s.sel, step.t) {
        if MayAdd(g.pool, g.maintenance, s.sel, step.sorted[0]) {
          AcceptedAdds(g.pool, g.maintenance, s.sel, step.t, step.sorted);
        } else {
          RefusedAddsNothing(g.pool, g.maintenance, s.sel, step.sorted);
        }
      } else if step.fromTable {
        SmallerTable(s.sel.modified, step.t);
      }
    }
  }

  // The measure as a number.
  function Weight(a: nat, b: nat, c: nat, m: nat, n: nat): nat {
    (a * (m + 1) + b) * (n + 1) + c
  }

  lemma TimesGap(x': nat, x: nat, n: nat)
    requires x' < x
    ensures x' * (n + 1) + (n + 1) <= x * (n + 1)
  {
    assert x * (n + 1) - (x' + 1) * (n + 1) == (x - x' - 1) * (n + 1);
  }

  lemma WeightDrops(a: nat, b: nat, c: nat, a': nat, b': nat, c': nat, m: nat, n: nat)
    requires b' <= m && c' <= n
    requires a' < a || (a' == a && b' < b) || (a' == a && b' == b && c' < c)
    ensures Weight(a', b', c', m, n) < Weight(a, b, c, m, n)
  {
    var x, x' := a * (m + 1) + b, a' * (m + 1) + b';
    if a' < a { TimesGap(a', a, m); }
    assert x' < x || (x' == x && c' < c);
    if x' < x { TimesGap(x', x, n); }
  }

  ghost function Rank(g: Setting, s: Progress): nat
    requires s.mi <= |g.order|
  {
    Weight(|g.pool.txs - InBlock(s.sel)|, |g.order| - s.mi, |s.sel.modified|, |g.order|, |g.pool.txs|)
  }

  lemma TableIsSmall(g: Setting, s: Progress)
    requires Sound(g, s)
    ensures |s.sel.modified| <= |g.pool.txs|
  {
    SubsetIsNoLarger(s.sel.modified.Keys, g.pool.txs);
  }

  lemma LowersRank(g: Setting, s: Progress, s': Progress)
    requires Lowers(g, s, s') && s.mi <= |g.order| && s'.mi <= |g.order| && |s'.sel.modified| <= |g.pool.txs|
    ensures Rank(g, s') < Rank(g, s)
  {
    hide Weight;
    WeightDrops(|g.pool.txs - InBlock(s.sel)|, |g.order| - s.mi, |s.sel.modified|,
                |g.pool.txs - InBlock(s'.sel)|, |g.order| - s'.mi, |s'.sel.modified|, |g.order|, |g.pool.txs|);
  }

  lemma StepLowersRank(g: Setting, s: Progress, step: Step)
    requires IsSetting(g) && Sound(g, s) && Enabled(g, s, step) && !Stalls(g, s, step)
    ensures Apply(g, s, step).mi <= |g.order| && Rank(g, Apply(g, s, step)) < Rank(g, s)
  {
    hide IsSetting, Enabled, Stalls, Apply, Rank, Lowers, ValidSelection;
    StepIsSound(g, s, step);
    StepLowersIff(g, s, step);
    TableIsSmall(g, Apply(g, s, step));
    LowersRank(g, s, Apply(g, s, step));
  }

  ghost predicate Stallless(g: Setting, steps: seq<Step>) {
    forall i | 0 <= i < |steps| :: !Stalls(g, After(g, steps[..i]), steps[i])
  }

  lemma StalllessPrefix(g: Setting, steps: seq<Step>, k: nat)
    requires k <= |steps| && Stallless(g, steps)
    ensures Stallless(g, steps[..k])
  {
    hide Stalls, After;
    forall i | 0 <= i < k ensures !Stalls(g, After(g, steps[..k][..i]), steps[..k][i]) {
      assert steps[..k][..i] == steps[..i];
    }
  }

  // A run in which no step stalls is no longer than the measure at its start.
  lemma {:induction false} RunIsShort(g: Setting, steps: seq<Step>)
    requires IsSetting(g) && IsRun(g, steps) && Stallless(g, steps)
    ensures After(g, steps).mi <= |g.order| && |steps| + Rank(g, After(g, steps)) <= Rank(g, Begin(g))
  {
    hide IsSetting, Enabled, Apply, Stalls, Rank;
    if steps != [] {
      var n := |steps| - 1;
      StalllessPrefix(g, steps, n);
      RunIsShort(g, steps[..n]);
      RunIsSound(g, steps[..n]);
      StepLowersRank(g, After(g, steps[..n]), steps[n]);
    }
  }

  // A record that stalls when it is taken.
  ghost predicate Stuck(g: Setting, s: Progress, step: Step) {
    && Stalls(g, s, step) && step.t in s.sel.modified
    && IsSorting(g.pool, Package(g.pool, s.sel, step.t), step.sorted)
  }

  // Whatever the side table says of other transactions, the block, the counters and the record are the same.
  ghost predicate SameTurn(s: Progress, s': Progress, t: TxId) {
    && s'.sel == s.sel.(modified := s'.sel.modified) && s'.failed == s.failed
    && t in s.sel.modified && t in s'.sel.modified && s'.sel.modified[t] == s.sel.modified[t]
  }

  // The turn of a stuck record leaves it stuck, with the same test and the same package.
  lemma StallStays(g: Setting, s: Progress, step: Step)
    requires Stuck(g, s, step)
    ensures Stuck(g, Apply(g, s, step), step) && SameTurn(s, Apply(g, s, step), step.t)
  {
    assert step.t in Elems(step.sorted);
  }

  // The same turn again and again, with stale entries skipped in between.
  ghost function Again(g: Setting, steps: seq<Step>, step: Step, n: nat): (more: seq<Step>)
    ensures |more| == n
  {
    if n == 0 then []
    else
      var more := Again(g, steps, step, n - 1);
      var s := After(g, steps + more);
      more + [if s.mi < |g.order| && Stale(g, s) then Skip else step]
  }

  lemma {:induction false} StuckGoesOn(g: Setting, s: Progress, step: Step)
    requires Stuck(g, s, step)
    ensures var next := if s.mi < |g.order| && Stale(g, s) then Skip else step;
            && Enabled(g, s, next)
            && Stuck(g, Apply(g, s, next), step) && SameTurn(s, Apply(g, s, next), step.t)
  {
    hide IsSorting, Passes;
    StallStays(g, s, step);
  }

  // Once a record is stuck the loop can go on for any number of turns without adding anything to the block.
  lemma {:induction false} StalledForEver(g: Setting, steps: seq<Step>, step: Step, n: nat)
    requires IsRun(g, steps) && Stuck(g, After(g, steps), step)
    ensures var longer := steps + Again(g, steps, step, n);
            && IsRun(g, longer) && Stuck(g, After(g, longer), step)
            && SameTurn(After(g, steps), After(g, longer), step.t)
  {
    hide Stuck, Apply, Enabled;
    var longer := steps + Again(g, steps, step, n);
    if n == 0 {
      assert longer == steps;
      StuckHasRecord(g, After(g, steps), step);
    } else {
      StalledForEver(g, steps, step, n - 1);
      assert longer[..|longer| - 1] == steps + Again(g, steps, step, n - 1);
      StuckGoesOn(g, After(g, steps + Again(g, steps, step, n - 1)), step);
    }
  }

  lemma StuckHasRecord(g: Setting, s: Progress, step: Step)
    requires Stuck(g, s, step)
    ensures step.Take? && step.t in s.sel.modified
  {
  }

  /* ----- Mempools for which neither happens ----- */

  // No shielded transaction depends on another transaction of the mempool, and none depends on it.
  ghost predicate ShieldedAlone(p: Pool) {
    forall t | t in p.txs && p.ancestors(t) != {} :: Shielded(p, WithAncestors(p, t)) == {}
  }

  ghost predicate Harmless(g: Setting) {
    EnoughSpace(g.pool, g.maintenance, g.carried, g.pool.txs) || ShieldedAlone(g.pool)
  }

  lemma AloneIsWhole(p: Pool, maintenance: bool, sel: Selection, t: TxId, sorted: seq<TxId>)
    requires ShieldedAlone(p) && t in p.txs && IsSorting(p, Package(p, sel, t), sorted) && p.ancestors(t) != {}
    ensures Accepted(p, maintenance, sel, sorted) == |sorted|
  {
    assert Shielded(p, Elems(sorted)) <= Shielded(p, WithAncestors(p, t));
    AddedWholeIff(p, maintenance, sel, sorted);
  }

  lemma AloneIsUnneeded(p: Pool, sel: Selection, t: TxId, sorted: seq<TxId>, added: set<TxId>)
    requires ShieldedAlone(p) && Elems(sorted) == Package(p, sel, t) && p.ancestors(t) == {} && p.isShielded(t)
    ensures AllAbsorb(p, sel, Elems(sorted), added)
  {
    hide Absorbs;
    forall u | u in p.txs && p.ancestors(u) != {} ensures t !in p.ancestors(u) {
      assert t !in Shielded(p, WithAncestors(p, u));
    }
  }

  lemma FirstIsAccepted(p: Pool, maintenance: bool, sel: Selection, sorted: seq<TxId>)
    requires sorted != [] && Accepted(p, maintenance, sel, sorted) == |sorted|
    ensures MayAdd(p, maintenance, sel, sorted[0])
  {
  }

  lemma HarmlessStep(g: Setting, s: Progress, step: Step)
    requires IsSetting(g) && Sound(g, s) && Enabled(g, s, step) && Harmless(g) && Faithful(g.pool, s.sel)
    ensures !Leaks(g, s, step) && !Stalls(g, s, step)
  {
    hide ValidPool, WellOrdered, ExactCounters, EnoughSpace, AllAbsorb, AddSorted, Faithful, MayAdd, IsSorting,
         Passes, ShieldedAlone;
    if step.Take? && Passes(g, s.sel, step.t) {
      var p, t, sorted := g.pool, step.t, step.sorted;
      TakenIsOutside(g, s, step);
      if EnoughSpace(p, g.maintenance, g.carried, p.txs) || p.ancestors(t) != {} || !p.isShielded(t) {
        WholeCases(g, s.sel, t, sorted);
        FirstIsAccepted(p, g.maintenance, s.sel, sorted);
        assert sorted[..|sorted|] == sorted;
        assert Elems(sorted) - Elems(sorted) == {};
        NothingNeedsIt(p, s.sel, Elems(sorted), Elems(sorted));
      } else {
        assert Elems(sorted) == Package(p, s.sel, t) by { SortingElems(p, Package(p, s.sel, t), sorted); }
        AloneIsUnneeded(p, s.sel, t, sorted, Elems(sorted[..Accepted(p, g.maintenance, s.sel, sorted)]));
      }
    }
  }

  lemma SortingElems(p: Pool, package: set<TxId>, sorted: seq<TxId>)
    requires IsSorting(p, package, sorted)
    ensures Elems(sorted) == package
  {
  }

  lemma WholeCases(g: Setting, sel: Selection, t: TxId, sorted: seq<TxId>)
    requires IsSetting(g) && ValidSelection(g.pool, g.maintenance, sel) && sel.carried == g.carried && Harmless(g)
    requires t in g.pool.txs - InBlock(sel) && IsSorting(g.pool, Package(g.pool, sel, t), sorted)
    requires EnoughSpace(g.pool, g.maintenance, g.carried, g.pool.txs) || g.pool.ancestors(t) != {} ||
             !g.pool.isShielded(t)
    ensures Accepted(g.pool, g.maintenance, sel, sorted) == |sorted|
  {
    hide EnoughSpace, WellOrdered, ExactCounters, AddSorted, ExactTotals, IsNarrow;
    var p := g.pool;
    if EnoughSpace(p, g.maintenance, g.carried, p.txs) {
      RoomForAll(p, g.maintenance, sel, t, sorted);
    } else if p.ancestors(t) != {} {
      AloneIsWhole(p, g.maintenance, sel, t, sorted);
    } else {
      PlainIsWhole(p, g.maintenance, sel, t, sorted);
    }
  }

  lemma PlainIsWhole(p: Pool, maintenance: bool, sel: Selection, t: TxId, sorted: seq<TxId>)
    requires IsSorting(p, Package(p, sel, t), sorted) && p.ancestors(t) == {} && !p.isShielded(t)
    ensures Accepted(p, maintenance, sel, sorted) == |sorted|
  {
    assert Shielded(p, Elems(sorted)) == {};
    AddedWholeIff(p, maintenance, sel, sorted);
  }

  // With room for all shielded transactions, or shielded transactions that stand alone, every run is within the
  // limits and short.
  lemma {:induction false} HarmlessRun(g: Setting, steps: seq<Step>)
    requires IsSetting(g) && IsRun(g, steps) && Harmless(g)
    ensures Leakless(g, steps) && Stallless(g, steps)
    ensures WithinLimits(After(g, steps).sel, g.blockMaxSize) && |steps| <= Rank(g, Begin(g))
  {
    hide IsSetting, Sound, Enabled, Apply, Faithful, Leaks, Stalls, WithinLimits, Rank, Harmless;
    if steps != [] {
      var n := |steps| - 1;
      HarmlessRun(g, steps[..n]);
      RunIsFaithful(g, steps[..n]);
      RunIsSound(g, steps[..n]);
      HarmlessStep(g, After(g, steps[..n]), steps[n]);
      forall i | 0 <= i < |steps|
        ensures !Leaks(g, After(g, steps[..i]), steps[i]) && !Stalls(g, After(g, steps[..i]), steps[i])
      {
        if i < n {
          assert steps[..n][..i] == steps[..i] && steps[..n][i] == steps[i];
        }
      }
    }
    RunIsWithinLimits(g, steps);
    RunIsShort(g, steps);
  }

  /* ----- Every entry has its turn ----- */

  // The transaction is taken, and fails a test or is in a package that is cut short.
  ghost predicate RefusedAt(g: Setting, s: Progress, step: Step, t: TxId) {
    && step.Take? && step.t == t
    && (!Passes(g, s.sel, t) || Accepted(g.pool, g.maintenance, s.sel, step.sorted) < |step.sorted|)
  }

  ghost predicate Refused(g: Setting, steps: seq<Step>, t: TxId) {
    exists k | 0 <= k < |steps| :: RefusedAt(g, After(g, steps[..k]), steps[k], t)
  }

  ghost predicate Settled(g: Setting, steps: seq<Step>, t: TxId) {
    t in After(g, steps).sel.block || t in After(g, steps).sel.modified || Refused(g, steps, t)
  }

  lemma RefusedStays(g: Setting, steps: seq<Step>, step: Step, t: TxId)
    requires Refused(g, steps, t) || RefusedAt(g, After(g, steps), step, t)
    ensures Refused(g, steps + [step], t)
  {
    hide RefusedAt, After;
    var longer := steps + [step];
    if Refused(g, steps, t) {
      var k :| 0 <= k < |steps| && RefusedAt(g, After(g, steps[..k]), steps[k], t);
      assert longer[..k] == steps[..k] && longer[k] == steps[k];
    } else {
      assert longer[..|steps|] == steps && longer[|steps|] == step;
    }
  }

  // One turn takes a transaction out of the side table only into the block or by refusing it.
  lemma TurnSettles(g: Setting, s: Progress, step: Step, t: TxId)
    requires Enabled(g, s, step)
    ensures var s' := Apply(g, s, step);
            && (t in s'.failed ==> t in s.failed || RefusedAt(g, s, step, t))
            && (t in s.sel.block || t in s.sel.modified ==>
                  t in s'.sel.block || t in s'.sel.modified || RefusedAt(g, s, step, t))
            && (step.Take? && step.t == t ==> t in s'.sel.block || RefusedAt(g, s, step, t))
  {
    hide Passes, MayAdd, AddSorted, SetTotal;
    if step.Take? && Passes(g, s.sel, step.t) {
      var sorted := step.sorted;
      var k := Accepted(g.pool, g.maintenance, s.sel, sorted);
      AddSortedAdds(g.pool, g.maintenance, s.sel, sorted);
      assert step.t in Elems(sorted);
      if k == |sorted| { assert sorted[..k] == sorted; }
      assert forall u | u in Elems(sorted[..k]) :: u in sorted[..k];
    }
  }

  lemma {:induction false} FailedIsRefused(g: Setting, steps: seq<Step>, t: TxId)
    requires IsRun(g, steps) && t in After(g, steps).failed
    ensures Refused(g, steps, t)
  {
    hide RefusedAt, Refused, Enabled, Apply;
    if steps != [] {
      var init, step := steps[..|steps| - 1], steps[|steps| - 1];
      assert steps == init + [step];
      TurnSettles(g, After(g, init), step, t);
      if t in After(g, init).failed { FailedIsRefused(g, init, t); }
      RefusedStays(g, init, step, t);
    }
  }

  // The entry that a turn moves past: it is taken, or it is stale.
  lemma MovedPast(g: Setting, s: Progress, step: Step)
    requires Enabled(g, s, step) && Apply(g, s, step).mi != s.mi
    ensures Apply(g, s, step).mi == s.mi + 1 <= |g.order|
    ensures var t := g.order[s.mi];
            (step.Take? && step.t == t) || t in s.sel.block || t in s.sel.modified || t in s.failed
  {
    hide Passes, Consider;
  }

  lemma {:induction false} PassedIsSettled(g: Setting, steps: seq<Step>, j: nat)
    requires IsRun(g, steps) && j < After(g, steps).mi
    ensures j < |g.order| && Settled(g, steps, g.order[j])
  {
    hide RefusedAt, Refused, Enabled, Apply;
    if steps != [] {
      var init, step := steps[..|steps| - 1], steps[|steps| - 1];
      var s := After(g, init);
      assert steps == init + [step];
      if j < s.mi { PassedIsSettled(g, init, j); } else { MovedPast(g, s, step); }
      var t := g.order[j];
      TurnSettles(g, s, step, t);
      if t in s.failed { FailedIsRefused(g, init, t); }
      if Refused(g, init, t) || RefusedAt(g, s, step, t) { RefusedStays(g, init, step, t); }
    }
  }

  // When a run is over, each entry of the mempool is in the block or was taken and refused: none is overlooked.
  lemma NothingIsOverlooked(g: Setting, steps: seq<Step>, t: TxId)
    requires IsRun(g, steps) && t in g.order
    requires After(g, steps).mi == |g.order| && After(g, steps).sel.modified == map[]
    ensures t in After(g, steps).sel.block || Refused(g, steps, t)
  {
    hide IsRun, After, Refused;
    var j :| 0 <= j < |g.order| && g.order[j] == t;
    PassedIsSettled(g, steps, j);
  }

  /* ----- Several blocks from one assembler ----- */

  // Each block goes on with the shielded size that the one before it left.
  ghost predicate GoesOn(gs: seq<Setting>, runs: seq<seq<Step>>, k: nat)
    requires k < |gs| == |runs|
  {
    && IsSetting(gs[k].(carried := 0)) && IsRun(gs[k], runs[k])
    && gs[k].carried == if k == 0 then 0 else After(gs[k - 1], runs[k - 1]).sel.shieldedSize
  }

  ghost predicate OneAfterAnother(gs: seq<Setting>, runs: seq<seq<Step>>) {
    |gs| == |runs| && forall k | 0 <= k < |gs| :: GoesOn(gs, runs, k)
  }

  // The shielded bytes of one block, and of the first n.
  ghost function BlockBytes(g: Setting, run: seq<Step>): nat {
    SetTotal(Shielded(g.pool, InBlock(After(g, run).sel)), g.pool.size)
  }

  ghost function ShieldedBytes(gs: seq<Setting>, runs: seq<seq<Step>>, n: nat): nat
    requires n <= |gs| == |runs|
  {
    if n == 0 then 0 else ShieldedBytes(gs, runs, n - 1) + BlockBytes(gs[n - 1], runs[n - 1])
  }

  lemma BlockCounts(g: Setting, run: seq<Step>)
    requires IsSetting(g.(carried := 0)) && g.carried <= MAX_SHIELDED_SIZE && IsRun(g, run)
    ensures After(g, run).sel.shieldedSize == g.carried + BlockBytes(g, run) <= MAX_SHIELDED_SIZE
  {
    hide IsRun, After, Sound, SetTotal, Shielded, ValidPool;
    RunIsSound(g, run);
    SoundShielded(g, After(g, run));
  }

  lemma SoundShielded(g: Setting, s: Progress)
    requires Sound(g, s)
    ensures s.sel.shieldedSize == g.carried + SetTotal(Shielded(g.pool, InBlock(s.sel)), g.pool.size)
    ensures s.sel.shieldedSize <= MAX_SHIELDED_SIZE
  {
    hide WellOrdered, SetTotal, Shielded;
  }

  // All blocks of one assembler together keep the cap on shielded bytes that is meant for each.
  lemma {:induction false} BlocksShareTheCap(gs: seq<Setting>, runs: seq<seq<Step>>, n: nat)
    requires OneAfterAnother(gs, runs) && n <= |gs|
    ensures ShieldedBytes(gs, runs, n) <= MAX_SHIELDED_SIZE
    ensures n > 0 ==> ShieldedBytes(gs, runs, n) == After(gs[n - 1], runs[n - 1]).sel.shieldedSize
  {
    hide IsRun, After, IsSetting, BlockBytes;
    if n > 0 {
      BlocksShareTheCap(gs, runs, n - 1);
      assert GoesOn(gs, runs, n - 1);
      BlockCounts(gs[n - 1], runs[n - 1]);
    }
  }
}
