/**
 The tree of block headers with its skip pointers, and the active chain. Following skip
 pointers finds the block that walking back one by one would find.
 */
module Chains {
  import Powers

  /* ----- The heights skipped to ----- */

  function And(x: nat, y: nat): nat
    decreases x + y
  {
    if x == 0 || y == 0 then 0
    else 2 * And(x / 2, y / 2) + if x % 2 == 1 && y % 2 == 1 then 1 else 0
  }

  function InvertLowestOne(n: nat): nat {
    if n == 0 then 0 else And(n, n - 1)
  }

  function GetSkipHeight(height: int): nat {
    if height < 2 then 0
    else if height % 2 == 1 then InvertLowestOne(InvertLowestOne(height - 1)) + 1
    else InvertLowestOne(height)
  }

  // The largest power of two that divides n.
  function LowestOne(n: nat): nat
    requires n > 0
  {
    if n % 2 == 1 then 1 else 2 * LowestOne(n / 2)
  }

  lemma {:induction false} AndSelf(n: nat)
    ensures And(n, n) == n
  {
    if n > 0 { AndSelf(n / 2); }
  }

  lemma {:induction false} InvertTakesLowestOne(n: nat)
    requires n > 0
    ensures InvertLowestOne(n) == n - LowestOne(n) && 1 <= LowestOne(n) <= n
  {
    if n % 2 == 1 {
      AndSelf(n / 2);
      assert (n - 1) / 2 == n / 2;
    } else {
      InvertTakesLowestOne(n / 2);
      assert (n - 1) / 2 == n / 2 - 1;
    }
  }

  // Any height below would do for correctness; this one is.
  lemma SkipsBack(height: nat)
    requires height > 0
    ensures GetSkipHeight(height) < height
  {
    InvertTakesLowestOne(height);
    if height > 1 {
      InvertTakesLowestOne(height - 1);
      if InvertLowestOne(height - 1) > 0 { InvertTakesLowestOne(InvertLowestOne(height - 1)); }
    }
  }

  /* ----- The tree ----- */

  class BlockIndex {
    const pprev: BlockIndex?
    const nHeight: nat
    var pskip: BlockIndex?

    constructor (pprev: BlockIndex?)
      ensures this.pprev == pprev && nHeight == (if pprev == null then 0 else pprev.nHeight + 1) && pskip == null
    {
      this.pprev := pprev;
      nHeight := if pprev == null then 0 else pprev.nHeight + 1;
      pskip := null;
    }

    // The ancestor at a height, by way of the skip pointers.
    method GetAncestor(height: int, ghost tree: set<BlockIndex>) returns (r: BlockIndex?)
      requires TreeOk(tree) && this in tree
      ensures if height > nHeight || height < 0 then r == null
              else r == Walk(this, height) && r in tree && r.nHeight == height
    {
      if height > nHeight || height < 0 {
        return null;
      }
      var walk: BlockIndex := this;
      var heightWalk := nHeight;
      while heightWalk > height
        invariant walk in tree && heightWalk == walk.nHeight >= height && Walk(walk, height) == Walk(this, height)
        decreases heightWalk
      {
        var heightSkip := GetSkipHeight(heightWalk);
        var heightSkipPrev := GetSkipHeight(heightWalk - 1);
        SkipsBack(heightWalk);
        assert walk.pprev != null && walk.pprev in tree;
        if heightSkip == height ||
            (heightSkip > height && !(heightSkipPrev < heightSkip - 2 && heightSkipPrev >= height)) {
          WalkIsAncestor(walk.pprev, heightSkip, tree);
          WalkTwice(walk.pprev, heightSkip, height);
          walk := walk.pskip;
          heightWalk := heightSkip;
        } else {
          walk := walk.pprev;
          heightWalk := heightWalk - 1;
        }
      }
      return walk;
    }

    method BuildSkip(ghost tree: set<BlockIndex>)
      requires TreeOk(tree) && Rooted(this) && (pprev != null ==> pprev in tree) && this !in tree
      modifies this`pskip
      ensures pprev != null ==> SkipOk(this)
      ensures TreeOk(tree + {this})
    {
      if pprev != null {
        SkipsBack(nHeight);
        pskip := pprev.GetAncestor(GetSkipHeight(nHeight), tree);
      }
    }
  }

  // Heights count the steps to the root.
  ghost predicate Rooted(b: BlockIndex)
    decreases b.nHeight
  {
    if b.pprev == null then b.nHeight == 0 else b.nHeight == b.pprev.nHeight + 1 && Rooted(b.pprev)
  }

  // The ancestor at a height, walking back block by block.
  ghost function Walk(b: BlockIndex, height: nat): BlockIndex
    requires Rooted(b) && height <= b.nHeight
    decreases b.nHeight
  {
    if height == b.nHeight then b else Walk(b.pprev, height)
  }

  // A tree with all ancestors of its blocks, whose skip pointers lead where they should.
  ghost predicate TreeOk(tree: set<BlockIndex>)
    reads tree
  {
    forall b | b in tree :: Rooted(b) && (b.pprev != null ==> b.pprev in tree && SkipOk(b))
  }

  ghost predicate SkipOk(b: BlockIndex)
    requires Rooted(b) && b.pprev != null
    reads b
  {
    GetSkipHeight(b.nHeight) <= b.pprev.nHeight && b.pskip == Walk(b.pprev, GetSkipHeight(b.nHeight))
  }

  lemma {:induction false} WalkIsAncestor(b: BlockIndex, height: nat, tree: set<BlockIndex>)
    requires TreeOk(tree) && b in tree && height <= b.nHeight
    ensures Walk(b, height) in tree && Walk(b, height).nHeight == height && Rooted(Walk(b, height))
    decreases b.nHeight
  {
    if height < b.nHeight { WalkIsAncestor(b.pprev, height, tree); }
  }

  lemma {:induction false} WalkHeight(b: BlockIndex, height: nat)
    requires Rooted(b) && height <= b.nHeight
    ensures Walk(b, height).nHeight == height && Rooted(Walk(b, height))
    decreases b.nHeight
  {
    if height < b.nHeight { WalkHeight(b.pprev, height); }
  }

  lemma {:induction false} WalkTwice(b: BlockIndex, high: nat, low: nat)
    requires Rooted(b) && low <= high <= b.nHeight
    ensures Walk(b, high).nHeight == high && Rooted(Walk(b, high)) && Walk(Walk(b, high), low) == Walk(b, low)
    decreases b.nHeight
  {
    if high < b.nHeight { WalkTwice(b.pprev, high, low); }
  }

  // How every tree is built: a block is linked to one that is there, and its skip pointer is set.
  method AddBlock(pprev: BlockIndex?, ghost tree: set<BlockIndex>) returns (b: BlockIndex)
    requires TreeOk(tree) && (pprev != null ==> pprev in tree)
    ensures fresh(b) && b.pprev == pprev && TreeOk(tree + {b})
  {
    b := new BlockIndex(pprev);
    b.BuildSkip(tree);
  }

  /* ----- Common ancestors ----- */

  ghost predicate IsAncestor(a: BlockIndex, b: BlockIndex)
    requires Rooted(b)
  {
    a.nHeight <= b.nHeight && Walk(b, a.nHeight) == a
  }

  ghost predicate IsCommon(c: BlockIndex, a: BlockIndex, b: BlockIndex)
    requires Rooted(a) && Rooted(b)
  {
    IsAncestor(c, a) && IsAncestor(c, b)
  }

  // The highest block that is an ancestor of both, or null when there is none.
  ghost predicate IsLastCommon(r: BlockIndex?, a: BlockIndex, b: BlockIndex, tree: set<BlockIndex>)
    requires Rooted(a) && Rooted(b)
  {
    && (r != null ==> IsCommon(r, a, b))
    && (forall c | c in tree && IsCommon(c, a, b) :: r != null && c.nHeight <= r.nHeight)
  }

  method LastCommonAncestor(pa: BlockIndex, pb: BlockIndex, ghost tree: set<BlockIndex>) returns (r: BlockIndex?)
    requires TreeOk(tree) && pa in tree && pb in tree
    ensures IsLastCommon(r, pa, pb, tree)
  {
    var a: BlockIndex?, b: BlockIndex? := pa, pb;
    if pa.nHeight > pb.nHeight {
      a := pa.GetAncestor(pb.nHeight, tree);
    } else if pb.nHeight > pa.nHeight {
      b := pb.GetAncestor(pa.nHeight, tree);
    }
    ghost var h: int := if pa.nHeight < pb.nHeight then pa.nHeight else pb.nHeight;
    assert NoneAbove(pa, pb, h, tree);
    hide NoneAbove, IsLastCommon, TreeOk;
    OkIsRooted(tree);
    while a != b && a != null && b != null
      invariant -1 <= h <= pa.nHeight && h <= pb.nHeight
      invariant if h < 0 then a == null && b == null else a == Walk(pa, h) && b == Walk(pb, h) && a in tree && b in tree
      invariant NoneAbove(pa, pb, h, tree)
      decreases h
    {
      WalkBack(pa, h);
      WalkBack(pb, h);
      NoneAt(pa, pb, h, tree);
      a := a.pprev;
      b := b.pprev;
      h := h - 1;
    }
    assert a == b;
    MeetingPoint(pa, pb, h, a, tree);
    return a;
  }

  lemma OkIsRooted(tree: set<BlockIndex>)
    requires TreeOk(tree)
    ensures forall b | b in tree :: Rooted(b) && (b.pprev != null ==> b.pprev in tree)
  {
  }

  // No common ancestor is higher than h.
  ghost predicate NoneAbove(a: BlockIndex, b: BlockIndex, h: int, tree: set<BlockIndex>)
    requires Rooted(a) && Rooted(b)
  {
    forall c | c in tree && IsCommon(c, a, b) :: c.nHeight <= h
  }

  lemma NoneAt(a: BlockIndex, b: BlockIndex, h: nat, tree: set<BlockIndex>)
    requires Rooted(a) && Rooted(b) && h <= a.nHeight && h <= b.nHeight
    requires NoneAbove(a, b, h, tree) && Walk(a, h) != Walk(b, h)
    ensures NoneAbove(a, b, h - 1, tree)
  {
  }

  lemma MeetingPoint(a: BlockIndex, b: BlockIndex, h: int, r: BlockIndex?, tree: set<BlockIndex>)
    requires Rooted(a) && Rooted(b) && NoneAbove(a, b, h, tree) && -1 <= h <= a.nHeight && h <= b.nHeight
    requires if h < 0 then r == null else r == Walk(a, h) == Walk(b, h)
    ensures IsLastCommon(r, a, b, tree)
  {
    if h >= 0 { WalkHeight(a, h); }
  }

  lemma {:induction false} WalkBack(b: BlockIndex, height: nat)
    requires Rooted(b) && height <= b.nHeight
    ensures var w := Walk(b, height);
            w.nHeight == height && Rooted(w) &&
                (if height == 0 then w.pprev == null else w.pprev != null && w.pprev == Walk(b, height - 1))
    decreases b.nHeight
  {
    if height < b.nHeight { WalkBack(b.pprev, height); }
  }

  /* ----- The active chain ----- */

  class Chain {
    var vChain: seq<BlockIndex?>

    // Each height holds the tip's ancestor at that height.
    ghost predicate Valid(tree: set<BlockIndex>)
      reads this
    {
      vChain != [] ==> IsChainOf(vChain, vChain[|vChain| - 1], tree)
    }

    constructor ()
      ensures vChain == []
    {
      vChain := [];
    }

    function At(height: int): BlockIndex?
      reads this
    {
      if height < 0 || height >= |vChain| then null else vChain[height]
    }

    predicate Contains(b: BlockIndex)
      reads this
    {
      At(b.nHeight) == b
    }

    function Height(): int
      reads this
    {
      |vChain| - 1
    }

    // Membership is being an ancestor of the tip.
    lemma ContainsIff(b: BlockIndex, tree: set<BlockIndex>)
      requires TreeOk(tree) && Valid(tree) && b in tree && vChain != []
      ensures vChain[|vChain| - 1] in tree && (Contains(b) <==> IsAncestor(b, vChain[|vChain| - 1]))
    {
    }

    method SetTip(tip: BlockIndex?, ghost tree: set<BlockIndex>)
      requires TreeOk(tree) && Valid(tree) && (tip != null ==> tip in tree)
      modifies this
      ensures Valid(tree)
      ensures if tip == null then vChain == [] else |vChain| == tip.nHeight + 1 && IsChainOf(vChain, tip, tree)
    {
      if tip == null {
        vChain := [];
        return;
      }
      ghost var before := vChain;
      OkIsRooted(tree);
      assert Walk(tip, tip.nHeight) == tip;
      hide TreeOk, IsChainOf, Rooted, Walk, Resized;
      vChain := Resized(vChain, tip.nHeight + 1);
      ghost var sized := vChain;
      var b: BlockIndex? := tip;
      ghost var h: int := tip.nHeight;
      while b != null && vChain[b.nHeight] != b
        invariant -1 <= h <= tip.nHeight && |vChain| == tip.nHeight + 1
        invariant if h < 0 then b == null else b == Walk(tip, h) && b in tree && b.nHeight == h
        invariant forall k | h < k <= tip.nHeight :: vChain[k] == Walk(tip, k)
        invariant forall k | 0 <= k <= h :: vChain[k] == sized[k]
        decreases h
      {
        WalkBack(tip, h);
        vChain := vChain[b.nHeight := b];
        b := b.pprev;
        h := h - 1;
      }
      if b != null {
        RestIsThere(before, sized, tip, h, tree);
      }
      ChainIsSet(vChain, tip, tree);
    }

    // An ancestor: looked up where the block is in the chain, found by skipping where it is not.
    method Back(b: BlockIndex, height: nat, ghost tree: set<BlockIndex>) returns (r: BlockIndex)
      requires TreeOk(tree) && Valid(tree) && b in tree && height <= b.nHeight
      ensures r in tree && Rooted(b) && r == Walk(b, height) && r.nHeight == height
    {
      WalkIsAncestor(b, height, tree);
      if Contains(b) {
        WalkTwice(vChain[|vChain| - 1], b.nHeight, height);
        r := At(height);
      } else {
        r := b.GetAncestor(height, tree);
      }
    }

    // From a block back to the root: ten single steps, then each twice as long as the one before.
    method LocatorFrom(from: BlockIndex, ghost tree: set<BlockIndex>) returns (have: seq<BlockIndex>)
      requires TreeOk(tree) && Valid(tree) && from in tree
      ensures Rooted(from) && LocatorOk(have, from) && have[|have| - 1].nHeight == 0
    {
      have := [];
      var nStep := 1;
      var b := from;
      assert LocatorOk([] + [from], from);
      hide LocatorOk, TreeOk, IsChainOf, Contains, At;
      OkIsRooted(tree);
      while true
        invariant b in tree && IsAncestor(b, from) && LocatorOk(have + [b], from) && nStep == LocatorStep(|have|)
        decreases b.nHeight
      {
        have := have + [b];
        if b.nHeight == 0 {
          break;
        }
        var nHeight := if b.nHeight < nStep then 0 else b.nHeight - nStep;
        StepIsPositive(|have| - 1);
        WalkTwice(from, b.nHeight, nHeight);
        b := Back(b, nHeight, tree);
        LocatorNext(have, b, from);
        if |have| > 10 {
          nStep := nStep * 2;
        }
      }
      assert LocatorOk(have, from) && have != [];
    }

    // From the given block or, without one, from the tip.
    method GetLocator(start: BlockIndex?, ghost tree: set<BlockIndex>) returns (have: seq<BlockIndex>)
      requires TreeOk(tree) && Valid(tree) && (start != null ==> start in tree)
      ensures start == null && vChain == [] ==> have == []
      ensures start != null ==> Rooted(start) && LocatorOk(have, start) && have[|have| - 1].nHeight == 0
      ensures start == null && vChain != [] ==>
                var tip := vChain[|vChain| - 1]; Rooted(tip) && LocatorOk(have, tip) && have[|have| - 1].nHeight == 0
    {
      if start != null {
        have := LocatorFrom(start, tree);
      } else if vChain != [] {
        have := LocatorFrom(vChain[|vChain| - 1], tree);
      } else {
        have := [];
      }
    }

    // The last block of the chain that is an ancestor of b.
    method FindFork(b: BlockIndex?, ghost tree: set<BlockIndex>) returns (r: BlockIndex?)
      requires TreeOk(tree) && Valid(tree) && (b != null ==> b in tree)
      ensures b == null ==> r == null
      ensures b != null ==> (r != null ==> r in tree && Contains(r) && IsAncestor(r, b))
      ensures b != null ==>
              forall c | c in tree && Contains(c) && IsAncestor(c, b) :: r != null && c.nHeight <= r.nHeight
      ensures b != null && vChain != [] ==>
              vChain[|vChain| - 1] in tree && IsLastCommon(r, b, vChain[|vChain| - 1], tree)
    {
      if b == null {
        return null;
      }
      r := b;
      if b.nHeight > Height() {
        r := b.GetAncestor(Height(), tree);
      }
      ghost var h: int := if b.nHeight > Height() then Height() else b.nHeight;
      assert NoForkAbove(b, h, tree);
      OkIsRooted(tree);
      hide TreeOk, NoForkAbove, IsChainOf, IsLastCommon;
      while r != null && !Contains(r)
        invariant -1 <= h <= b.nHeight
        invariant if h < 0 then r == null else r == Walk(b, h) && r in tree && r.nHeight == h
        invariant NoForkAbove(b, h, tree)
        decreases h
      {
        WalkBack(b, h);
        NoForkAt(b, h, tree);
        r := r.pprev;
        h := h - 1;
      }
      ForkFound(b, h, r, tree);
    }

    // No block of the chain that is higher than h is an ancestor of b.
    ghost predicate NoForkAbove(b: BlockIndex, h: int, tree: set<BlockIndex>)
      requires Rooted(b)
      reads this
    {
      forall c | c in tree && Contains(c) && IsAncestor(c, b) :: c.nHeight <= h
    }

    lemma NoForkAt(b: BlockIndex, h: nat, tree: set<BlockIndex>)
      requires Rooted(b) && h <= b.nHeight && NoForkAbove(b, h, tree) && !Contains(Walk(b, h))
      ensures NoForkAbove(b, h - 1, tree)
    {
    }

    lemma ForkFound(b: BlockIndex, h: int, r: BlockIndex?, tree: set<BlockIndex>)
      requires TreeOk(tree) && Valid(tree) && b in tree && -1 <= h <= b.nHeight && NoForkAbove(b, h, tree)
      requires if h < 0 then r == null else r == Walk(b, h) && r in tree && r.nHeight == h && Contains(r)
      ensures forall c | c in tree && Contains(c) && IsAncestor(c, b) :: r != null && c.nHeight <= r.nHeight
      ensures vChain != [] ==> vChain[|vChain| - 1] in tree && IsLastCommon(r, b, vChain[|vChain| - 1], tree)
    {
      if vChain != [] {
        forall c | c in tree ensures Contains(c) <==> IsAncestor(c, vChain[|vChain| - 1]) { ContainsIff(c, tree); }
      }
    }
  }

  function LocatorStep(i: nat): nat {
    if i <= 10 then 1 else 2 * LocatorStep(i - 1)
  }

  lemma {:induction false} StepIsPositive(i: nat)
    ensures LocatorStep(i) >= 1
  {
    if i > 10 { StepIsPositive(i - 1); }
  }

  // A list of ancestors of a block, from itself back in growing steps.
  ghost predicate LocatorOk(have: seq<BlockIndex>, from: BlockIndex)
    requires Rooted(from)
    ensures LocatorOk(have, from) ==> have != []
  {
    && have != [] && have[0] == from
    && (forall i | 0 <= i < |have| :: IsAncestor(have[i], from))
    && (forall i | 0 <= i < |have| - 1 ::
          have[i].nHeight > 0 &&
              have[i + 1].nHeight == if have[i].nHeight < LocatorStep(i) then 0 else have[i].nHeight - LocatorStep(i))
  }

  lemma LocatorNext(have: seq<BlockIndex>, b: BlockIndex, from: BlockIndex)
    requires Rooted(from) && LocatorOk(have, from) && IsAncestor(b, from) && have[|have| - 1].nHeight > 0
    requires var h, step := have[|have| - 1].nHeight, LocatorStep(|have| - 1);
             b.nHeight == if h < step then 0 else h - step
    ensures LocatorOk(have + [b], from)
  {
  }

  // How far below the start the i-th entry is: ten single steps, then steps that double.
  function Reach(i: nat): nat {
    if i <= 11 then i else 9 + Powers.Pow(2, i - 10)
  }

  lemma {:induction false} StepIs(i: nat)
    ensures LocatorStep(i) == if i <= 10 then 1 else Powers.Pow(2, i - 10)
  {
    if i > 10 { StepIs(i - 1); }
  }

  lemma ReachNext(i: nat)
    ensures Reach(i + 1) == Reach(i) + LocatorStep(i)
  {
    StepIs(i);
    if i == 11 { assert Powers.Pow(2, 1) == 2 && Powers.Pow(2, 2) == 4; }
  }

  // The heights of a locator, and that it is short: its length grows with the logarithm of the height only.
  lemma {:induction false} LocatorHeights(have: seq<BlockIndex>, from: BlockIndex, i: nat)
    requires Rooted(from) && LocatorOk(have, from) && i < |have|
    ensures have[i].nHeight == if from.nHeight < Reach(i) then 0 else from.nHeight - Reach(i)
    ensures i > 0 ==> from.nHeight > Reach(i - 1)
  {
    if i > 0 {
      LocatorHeights(have, from, i - 1);
      ReachNext(i - 1);
    }
  }

  lemma LocatorIsShort(have: seq<BlockIndex>, from: BlockIndex)
    requires Rooted(from) && LocatorOk(have, from)
    ensures |have| <= from.nHeight + 1
    ensures |have| >= 14 ==> Powers.Pow(2, |have| - 12) + 9 < from.nHeight
  {
    LocatorHeights(have, from, |have| - 1);
    if |have| >= 2 { ReachIsFar(|have| - 2); }
  }

  lemma {:induction false} ReachIsFar(i: nat)
    ensures Reach(i) >= i
  {
    if i > 0 {
      ReachIsFar(i - 1);
      ReachNext(i - 1);
      StepIsPositive(i - 1);
    }
  }

  ghost predicate IsChainOf(v: seq<BlockIndex?>, tip: BlockIndex?, tree: set<BlockIndex>) {
    && tip != null && tip in tree && Rooted(tip) && |v| == tip.nHeight + 1
    && (forall k | 0 <= k < |v| :: v[k] == Walk(tip, k))
  }

  function Resized(v: seq<BlockIndex?>, n: nat): (r: seq<BlockIndex?>)
    ensures |r| == n && forall k | 0 <= k < n :: r[k] == if k < |v| then v[k] else null
  {
    if n <= |v| then v[..n] else v + seq(n - |v|, k => null)
  }

  lemma ChainIsSet(v: seq<BlockIndex?>, tip: BlockIndex, tree: set<BlockIndex>)
    requires tip in tree && Rooted(tip) && |v| == tip.nHeight + 1 && forall k | 0 <= k < |v| :: v[k] == Walk(tip, k)
    ensures IsChainOf(v, tip, tree) && v[|v| - 1] == tip
  {
  }

  // Where the new chain meets the old one, everything below is in place already.
  lemma RestIsThere(before: seq<BlockIndex?>, sized: seq<BlockIndex?>, tip: BlockIndex, h: nat, tree: set<BlockIndex>)
    requires TreeOk(tree) && tip in tree && h <= tip.nHeight && sized == Resized(before, tip.nHeight + 1)
    requires before != [] ==> IsChainOf(before, before[|before| - 1], tree)
    requires sized[h] == Walk(tip, h)
    ensures forall k | 0 <= k <= h :: sized[k] == Walk(tip, k)
  {
    var last := before[|before| - 1];
    forall k | 0 <= k <= h ensures sized[k] == Walk(tip, k) {
      WalkTwice(tip, h, k);
      WalkTwice(last, h, k);
    }
  }
}
