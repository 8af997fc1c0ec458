/**
 Two mempools on which the selection falls short: one whose block outgrows its limit, and one
 on which the loop does not end.
 */
module SelectionExamples {
  import opened Totals
  import opened PackageSelection
  import opened SelectionRuns

  // Four transactions: 1 is shielded, 3 spends 1 and 2, 4 spends 2.
  function ExAncestors(t: TxId): set<TxId> {
    if t == 3 then {1, 2} else if t == 4 then {2} else {}
  }

  function ExSize(t: TxId): nat {
    if t == 2 then 800 else if t == 4 then 500 else 1
  }

  function ExSigOps(t: TxId): nat { 1 }

  predicate ExShielded(t: TxId) { t == 1 }

  predicate ExFinal(t: TxId) { true }

  function ExCount(t: TxId): nat {
    if t == 3 then 3 else if t == 4 then 2 else 1
  }

  function ExSizes(t: TxId): nat {
    if t == 3 then 802 else if t == 4 then 1300 else ExSize(t)
  }

  const EXAMPLE := Pool({1, 2, 3, 4}, ExAncestors, ExSize, ExSigOps, ExShielded, ExFinal, ExCount, ExSizes, ExCount)

  lemma PairTotal(a: TxId, b: TxId, w: TxId -> nat)
    requires a != b
    ensures SetTotal({a, b}, w) == w(a) + w(b)
  {
    SingleTotal<TxId>(a, w);
    SetTotalAdd({a}, b, w);
    assert {a} + {b} == {a, b};
  }

  lemma TripleTotal(a: TxId, b: TxId, c: TxId, w: TxId -> nat)
    requires a != b && a != c && b != c
    ensures SetTotal({a, b, c}, w) == w(a) + w(b) + w(c)
  {
    PairTotal(a, b, w);
    SetTotalAdd({a, b}, c, w);
    assert {a, b} + {c} == {a, b, c};
  }

  lemma ExampleTotal(t: TxId, w: TxId -> nat)
    requires t in EXAMPLE.txs
    ensures SetTotal(WithAncestors(EXAMPLE, t), w)
         == if t == 3 then w(1) + w(2) + w(3) else if t == 4 then w(2) + w(4) else w(t)
  {
    if t == 3 {
      assert WithAncestors(EXAMPLE, t) == {1, 2, 3};
      TripleTotal(1, 2, 3, w);
    } else if t == 4 {
      assert WithAncestors(EXAMPLE, t) == {2, 4};
      PairTotal(2, 4, w);
    } else {
      assert WithAncestors(EXAMPLE, t) == {t};
      SingleTotal<TxId>(t, w);
    }
  }

  lemma ExampleTotalOfAll(w: TxId -> nat)
    ensures SetTotal(EXAMPLE.txs, w) == w(1) + w(2) + w(3) + w(4)
  {
    TripleTotal(1, 2, 3, w);
    SetTotalAdd<TxId>({1, 2, 3}, 4, w);
    assert {1, 2, 3} + {4} == EXAMPLE.txs;
  }

  lemma ExampleCounts(t: TxId)
    requires t in EXAMPLE.txs
    ensures |WithAncestors(EXAMPLE, t)| == ExCount(t)
  {
    if t == 3 {
      assert WithAncestors(EXAMPLE, t) == {1, 2, 3};
    } else if t == 4 {
      assert WithAncestors(EXAMPLE, t) == {2, 4};
    } else {
      assert WithAncestors(EXAMPLE, t) == {t};
    }
  }

  lemma ExampleIsExact(t: TxId)
    requires t in EXAMPLE.txs
    ensures ExactAt(EXAMPLE, t)
  {
    ExampleCounts(t);
    ExampleTotal(t, ExSize);
    ExampleTotal(t, ExSigOps);
  }

  lemma ExampleIsNarrow()
    ensures IsNarrow(EXAMPLE)
  {
    ExampleTotalOfAll(ExSize);
    ExampleTotalOfAll(ExSigOps);
  }

  lemma ExampleIsOrder()
    ensures IsOrder(EXAMPLE)
  {
  }

  lemma ExampleIsValid()
    ensures ValidPool(EXAMPLE)
  {
    ExampleIsOrder();
    ExampleIsNarrow();
    forall t | t in EXAMPLE.txs ensures ExactAt(EXAMPLE, t) {
      ExampleIsExact(t);
    }
  }

  lemma ExampleUpdated(package: set<TxId>)
    requires package == {1, 2, 3}
    ensures Updated(EXAMPLE, map[], package, package) == map[4 := ModEntry(500, 1)]
  {
    var hit := EXAMPLE.ancestors(4) * package;
    assert hit == {2};
    SingleTotal<TxId>(2, ExSize);
    SingleTotal<TxId>(2, ExSigOps);
    assert Affected(EXAMPLE, package, package, 4);
    assert Minus(ModEntry(1300, 2), 800, 1) == ModEntry(500, 1);
  }

  lemma ExampleFirst()
    ensures IsSorting(EXAMPLE, Package(EXAMPLE, Start(0), 3), [1, 2, 3])
    ensures TestPackage(Start(0), 2000, EXAMPLE.sizeWithAncestors(3), EXAMPLE.sigOpsWithAncestors(3))
    ensures Consider(EXAMPLE, true, Start(0), [1, 2, 3]) == Start(0).(modified := map[4 := ModEntry(500, 1)])
  {
    var sorted := [1, 2, 3];
    assert Elems(sorted) == {1, 2, 3} == Package(EXAMPLE, Start(0), 3);
    ExampleUpdated(Elems(sorted));
  }

  lemma AddTwo(p: Pool, sel: Selection, t: TxId, u: TxId)
    requires !p.isShielded(t) && !p.isShielded(u)
    ensures AddSorted(p, true, sel, [t, u]).0 == AddToBlock(p, AddToBlock(p, sel, t), u)
  {
    assert [t, u][1..] == [u];
    assert AddSorted(p, true, AddToBlock(p, sel, t), [u]).0 == AddToBlock(p, AddToBlock(p, sel, t), u);
  }

  lemma ExampleSecond(sel: Selection)
    requires sel == Start(0).(modified := map[4 := ModEntry(500, 1)])
    ensures IsSorting(EXAMPLE, Package(EXAMPLE, sel, 4), [2, 4])
    ensures TestPackage(sel, 2000, sel.modified[4].size, sel.modified[4].sigOps)
    ensures Consider(EXAMPLE, true, sel, [2, 4]).blockSize == 2300
  {
    var sorted := [2, 4];
    assert Elems(sorted) == {2, 4} == Package(EXAMPLE, sel, 4);
    AddTwo(EXAMPLE, sel, 2, 4);
  }

  const CUT_SETTING := Setting(EXAMPLE, true, 2000, [3, 4, 1, 2], 0)

  const FIRST_CUT := Take(3, false, [1, 2, 3])
  const THEN_ADDED := Take(4, true, [2, 4])
  const AFTER_CUT := Progress(Start(0).(modified := map[4 := ModEntry(500, 1)]), 1, {})

  lemma CutStep()
    ensures Enabled(CUT_SETTING, Begin(CUT_SETTING), FIRST_CUT)
    ensures Apply(CUT_SETTING, Begin(CUT_SETTING), FIRST_CUT) == AFTER_CUT
  {
    hide Consider, IsSorting, PackageSelection.TestPackage;
    ExampleFirst();
  }

  lemma AddedStep(s: Progress)
    requires s == AFTER_CUT.(mi := 2)
    ensures Enabled(CUT_SETTING, s, THEN_ADDED) && Apply(CUT_SETTING, s, THEN_ADDED).sel.blockSize == 2300
  {
    hide Consider, IsSorting, PackageSelection.TestPackage;
    ExampleSecond(s.sel);
  }

  // In maintenance the package of 3 is cut before anything is added, yet the size of 2 is taken off 4.
  // Transaction 4 then passes the test alone, is added together with 2, and the block is over its limit.
  lemma CutBreaksTheLimit()
    ensures ValidPool(EXAMPLE) && IsSetting(CUT_SETTING) && IsRun(CUT_SETTING, [FIRST_CUT, Skip, THEN_ADDED])
    ensures After(CUT_SETTING, [FIRST_CUT, Skip, THEN_ADDED]).sel.blockSize == 2300 > CUT_SETTING.blockMaxSize
  {
    ExampleIsValid();
    hide ValidPool, Apply;
    CutStep();
    var g := CUT_SETTING;
    assert Enabled(g, AFTER_CUT, Skip) && Apply(g, AFTER_CUT, Skip) == AFTER_CUT.(mi := 2) by { SkipStep(); }
    AddedStep(AFTER_CUT.(mi := 2));
    ThreeSteps(g, FIRST_CUT, Skip, THEN_ADDED);
  }

  lemma SkipStep()
    ensures Enabled(CUT_SETTING, AFTER_CUT, Skip) && Apply(CUT_SETTING, AFTER_CUT, Skip) == AFTER_CUT.(mi := 2)
  {
  }

  lemma TwoSteps(g: Setting, a: Step, b: Step)
    ensures After(g, [a, b]) == Apply(g, Apply(g, Begin(g), a), b)
    ensures IsRun(g, [a, b]) <==> Enabled(g, Begin(g), a) && Enabled(g, Apply(g, Begin(g), a), b)
  {
    hide Apply, Enabled;
    OneMore(g, [], a);
    OneMore(g, [a], b);
    assert [] + [a] == [a] && [a] + [b] == [a, b];
  }

  lemma ThreeSteps(g: Setting, a: Step, b: Step, c: Step)
    ensures After(g, [a, b, c]) == Apply(g, Apply(g, Apply(g, Begin(g), a), b), c)
    ensures IsRun(g, [a, b, c])
       <==> Enabled(g, Begin(g), a) && Enabled(g, Apply(g, Begin(g), a), b)
            && Enabled(g, Apply(g, Apply(g, Begin(g), a), b), c)
  {
    hide Apply, Enabled;
    TwoSteps(g, a, b);
    OneMore(g, [a, b], c);
    assert [a, b] + [c] == [a, b, c];
  }

  /* ----- A loop that does not end ----- */

  // Transaction 2 is shielded and spends 1.
  function PairAncestors(t: TxId): set<TxId> {
    if t == 2 then {1} else {}
  }

  function PairSize(t: TxId): nat { 1 }

  predicate PairShielded(t: TxId) { t == 2 }

  function PairSizes(t: TxId): nat {
    if t == 2 then 2 else 1
  }

  const PAIR := Pool({1, 2}, PairAncestors, PairSize, PairSize, PairShielded, ExFinal, PairSizes, PairSizes, PairSizes)
  const PAIR_SETTING := Setting(PAIR, true, 2000, [1, 2], 0)
  const PARENT_ADDED := Progress(Selection([1], map[2 := ModEntry(1, 1)], 1001, 101, 0, 0), 1, {})
  const CHILD := Take(2, true, [2])

  lemma PairIsValid()
    ensures ValidPool(PAIR)
  {
    assert WithAncestors(PAIR, 1) == {1} && WithAncestors(PAIR, 2) == {1, 2};
    SingleTotal<TxId>(1, PairSize);
    PairTotal(1, 2, PairSize);
  }

  lemma PairUpdated(package: set<TxId>)
    requires package == {1}
    ensures Updated(PAIR, map[], package, package) == map[2 := ModEntry(1, 1)]
  {
    assert PAIR.ancestors(2) * package == {1};
    SingleTotal<TxId>(1, PairSize);
    assert Affected(PAIR, package, package, 2);
  }

  lemma ParentConsidered()
    ensures IsSorting(PAIR, Package(PAIR, Start(0), 1), [1])
    ensures Consider(PAIR, true, Start(0), [1]) == PARENT_ADDED.sel
  {
    var sorted := [1];
    assert Elems(sorted) == {1} == Package(PAIR, Start(0), 1);
    assert AddSorted(PAIR, true, Start(0), sorted).0 == AddToBlock(PAIR, Start(0), 1);
    PairUpdated(Elems(sorted));
  }

  lemma ParentStep()
    ensures Enabled(PAIR_SETTING, Begin(PAIR_SETTING), Take(1, false, [1]))
    ensures Apply(PAIR_SETTING, Begin(PAIR_SETTING), Take(1, false, [1])) == PARENT_ADDED
  {
    hide Consider, IsSorting;
    ParentConsidered();
  }

  lemma ChildIsStuck(s: Progress)
    requires s == PARENT_ADDED.(mi := 2)
    ensures Stuck(PAIR_SETTING, s, CHILD) && Apply(PAIR_SETTING, s, CHILD) == s
  {
    var sorted := [2];
    assert Elems(sorted) == {2} == Package(PAIR, s.sel, 2);
    assert forall u :: !Affected(PAIR, {2}, {2}, u);
  }

  // Once its parent is in the block, the shielded child is taken from the side table, passes the tests, is refused
  // in maintenance, and is taken again: there are runs of every length, and the block is that of the first turn.
  lemma LoopDoesNotEnd(n: nat)
    ensures var steps := [Take(1, false, [1]), Skip]; var longer := steps + Again(PAIR_SETTING, steps, CHILD, n);
            && ValidPool(PAIR) && IsSetting(PAIR_SETTING) && |longer| == n + 2
            && IsRun(PAIR_SETTING, longer) && After(PAIR_SETTING, longer).sel.block == [1]
  {
    var g, steps := PAIR_SETTING, [Take(1, false, [1]), Skip];
    PairIsValid();
    hide ValidPool, Stuck, Apply, Enabled, After, IsRun;
    ParentStep();
    ChildIsStuck(PARENT_ADDED.(mi := 2));
    assert Enabled(g, PARENT_ADDED, Skip) && Apply(g, PARENT_ADDED, Skip) == PARENT_ADDED.(mi := 2) by { PairSkip(); }
    TwoSteps(g, steps[0], steps[1]);
    StalledForEver(g, steps, CHILD, n);
  }

  lemma PairSkip()
    ensures Enabled(PAIR_SETTING, PARENT_ADDED, Skip)
    ensures Apply(PAIR_SETTING, PARENT_ADDED, Skip) == PARENT_ADDED.(mi := 2)
  {
  }
}
