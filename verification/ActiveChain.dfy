/** The active chain, an array of blocks indexed by height, and the searches that compare branches. */
module ActiveChain {
  import opened Bits
  import opened BlockTree
  import opened SkipHeights

  /** Every filled slot holds a block of that height whose parent fills the slot below. */
  ghost predicate Linked(v: seq<BlockIndex?>, blocks: set<BlockIndex>)
    reads blocks`pprev, blocks`nHeight
  {
    && (forall k :: 0 <= k < |v| && v[k] != null ==> v[k] in blocks)
    && (forall k :: 0 <= k < |v| && v[k] != null ==> v[k].nHeight == k)
    && (forall k :: 0 <= k < |v| && v[k] != null && v[k].pprev != null ==> k > 0 && v[k - 1] == v[k].pprev)
  }

  /** Below a filled slot lie the ancestors of its block. */
  lemma {:induction false} SlotLine(v: seq<BlockIndex?>, k: nat, h: int, blocks: set<BlockIndex>)
    requires Tree(blocks) && Linked(v, blocks) && k < |v| && v[k] != null
    requires v[k].Base() <= h <= k
    ensures 0 <= h && v[h] == v[k].At(h)
    decreases k
  {
    hide Tree;
    AtRange(v[k], h, blocks);
    if h < k {
      ParentStep(v[k], h, blocks);
      SameBase(v[k], blocks);
      AtInside(v[k], h, blocks);
      SlotLine(v, k - 1, h, blocks);
    } else {
      BaseRange(v[k], blocks);
    }
  }

  lemma SameBase(b: BlockIndex, blocks: set<BlockIndex>)
    requires Tree(blocks) && b in blocks
    ensures b.pprev != null ==> b.pprev in blocks && b.pprev.Base() == b.Base()
  {
    hide GetSkipHeight;
    assert Placed(b, blocks);
  }

  lemma BaseRange(b: BlockIndex, blocks: set<BlockIndex>)
    requires Tree(blocks) && b in blocks
    ensures 0 <= b.Base() <= b.nHeight
  {
    hide GetSkipHeight;
    assert Placed(b, blocks);
  }

  lemma AtInside(b: BlockIndex, h: int, blocks: set<BlockIndex>)
    requires Tree(blocks) && b in blocks
    ensures b.At(h) != null <==> b.Base() <= h <= b.nHeight
  {
  }

  class Chain {
    var vChain: seq<BlockIndex?>

    ghost predicate Valid(blocks: set<BlockIndex>)
      reads this, blocks`pprev, blocks`nHeight
    {
      Linked(vChain, blocks) && (|vChain| > 0 ==> vChain[|vChain| - 1] != null)
    }

    constructor ()
      ensures vChain == [] && Valid({})
    {
      vChain := [];
    }

    function Tip(): BlockIndex?
      reads this
    {
      if |vChain| > 0 then vChain[|vChain| - 1] else null
    }

    function Get(nHeight: int): BlockIndex?
      reads this
    {
      if nHeight < 0 || nHeight >= |vChain| then null else vChain[nHeight]
    }

    predicate Contains(p: BlockIndex)
      reads this, p`nHeight
    {
      Get(p.nHeight) == p
    }

    function Next(p: BlockIndex): BlockIndex?
      reads this, p`nHeight
    {
      if Contains(p) then Get(p.nHeight + 1) else null
    }

    function Height(): int
      reads this
    {
      |vChain| - 1
    }

    /** Makes a block the tip, rewriting only the slots that differ. */
    method SetTip(block: BlockIndex, ghost blocks: set<BlockIndex>)
      requires Tree(blocks) && block in blocks && Linked(vChain, blocks)
      modifies this
      ensures Valid(blocks) && Tip() == block && |vChain| == block.nHeight + 1
      ensures forall h :: 0 <= h <= block.nHeight ==>
        vChain[h] == if h >= block.Base() then block.At(h) else if h < |old(vChain)| then old(vChain)[h] else null
    {
      hide Tree, BlockIndex.At, BlockIndex.Base, Linked;
      BaseRange(block, blocks);
      AtRange(block, block.nHeight, blocks);
      vChain := Resized(vChain, block.nHeight + 1);
      ResizedLinked(old(vChain), block.nHeight + 1, blocks);
      ghost var was := vChain;
      var pindex: BlockIndex? := block;
      while pindex != null && vChain[pindex.nHeight] != pindex
        invariant |vChain| == block.nHeight + 1
        invariant pindex != null ==>
          pindex in blocks && block.Base() <= pindex.nHeight <= block.nHeight && pindex == block.At(pindex.nHeight)
        invariant forall h :: 0 <= h <= block.nHeight ==>
          vChain[h] ==
            if h >= (if pindex == null then block.Base() else pindex.nHeight + 1) then block.At(h)
            else was[h]
        decreases if pindex == null then 0 else pindex.nHeight + 1
      {
        vChain := vChain[pindex.nHeight := pindex];
        NextDown(block, pindex, blocks);
        pindex := pindex.pprev;
      }
      if pindex != null {
        forall h | block.Base() <= h <= pindex.nHeight
          ensures was[h] == block.At(h)
        {
          SlotAncestor(was, block, pindex, h, blocks);
        }
      }
      StillLinked(was, vChain, block, blocks);
    }

    /** The last block of a branch that is on the chain. */
    method FindFork(p: BlockIndex?, ghost blocks: set<BlockIndex>) returns (r: BlockIndex?)
      requires Tree(blocks) && (p != null ==> p in blocks)
      ensures p == null ==> r == null
      ensures r != null ==> r in blocks && Contains(r) && p.At(r.nHeight) == r
      ensures p != null ==> forall h :: p.At(h) != null && Contains(p.At(h)) ==> r != null && h <= r.nHeight
    {
      hide Tree, BlockIndex.At, BlockIndex.Base;
      if p == null {
        return null;
      }
      r := p;
      AtRange(p, p.nHeight, blocks);
      if p.nHeight > Height() {
        ghost var links;
        r, links := p.GetAncestor(Height(), blocks);
      }
      forall h | p.At(h) != null
        ensures p.Base() <= h <= p.nHeight && p.At(h).nHeight == h
      {
        AtRange(p, h, blocks);
        AtInside(p, h, blocks);
      }
      BaseRange(p, blocks);
      AtInside(p, Height(), blocks);
      while r != null && !Contains(r)
        invariant r != null ==> r in blocks && r == p.At(r.nHeight)
        invariant forall h :: p.At(h) != null && Contains(p.At(h)) ==> r != null && h <= r.nHeight
        decreases if r == null then 0 else r.nHeight + 1
      {
        NextDown(p, r, blocks);
        r := r.pprev;
      }
    }
  }

  function Resized(v: seq<BlockIndex?>, n: nat): (r: seq<BlockIndex?>)
    ensures |r| == n
  {
    if n <= |v| then v[..n] else v + seq(n - |v|, _ => null)
  }

  lemma ResizedLinked(v: seq<BlockIndex?>, n: nat, blocks: set<BlockIndex>)
    requires Linked(v, blocks)
    ensures Linked(Resized(v, n), blocks)
    ensures forall h :: 0 <= h < n ==> Resized(v, n)[h] == if h < |v| then v[h] else null
  {
  }

  /** The next block down the line of `block`. */
  lemma NextDown(block: BlockIndex, p: BlockIndex, blocks: set<BlockIndex>)
    requires Tree(blocks) && block in blocks && p in blocks && p == block.At(p.nHeight)
    ensures p.pprev == null <==> p.nHeight == block.Base()
    ensures p.pprev != null ==>
      p.pprev in blocks && p.pprev.nHeight == p.nHeight - 1 && p.pprev == block.At(p.nHeight - 1)
    ensures block.Base() <= p.nHeight
  {
    hide GetSkipHeight;
    assert Placed(block, blocks);
    assert Placed(p, blocks);
    LinePart(block, p.nHeight, p.nHeight - 1, blocks);
  }

  lemma SlotAncestor(v: seq<BlockIndex?>, block: BlockIndex, p: BlockIndex, h: int, blocks: set<BlockIndex>)
    requires Tree(blocks) && Linked(v, blocks) && block in blocks && p in blocks && p == block.At(p.nHeight)
    requires p.nHeight < |v| && v[p.nHeight] == p && block.Base() <= h <= p.nHeight
    ensures 0 <= h && v[h] == block.At(h)
  {
    hide Tree, BlockIndex.At, BlockIndex.Base, Linked;
    LinePart(block, p.nHeight, h, blocks);
    SlotLine(v, p.nHeight, h, blocks);
  }

  /** Laying the line of a block over a linked chain leaves it linked. */
  lemma StillLinked(was: seq<BlockIndex?>, v: seq<BlockIndex?>, block: BlockIndex, blocks: set<BlockIndex>)
    requires Tree(blocks) && block in blocks && Linked(was, blocks) && |v| == |was| == block.nHeight + 1
    requires forall h :: 0 <= h <= block.nHeight ==> v[h] == if h >= block.Base() then block.At(h) else was[h]
    ensures Linked(v, blocks) && v[block.nHeight] == block
  {
    hide Tree, BlockIndex.At, BlockIndex.Base;
    BaseRange(block, blocks);
    AtRange(block, block.nHeight, blocks);
    forall k | 0 <= k < |v| && v[k] != null
      ensures v[k] in blocks && v[k].nHeight == k
    {
      AtRange(block, k, blocks);
    }
    forall k | 0 <= k < |v| && v[k] != null && v[k].pprev != null
      ensures k > 0 && v[k - 1] == v[k].pprev
    {
      if k >= block.Base() {
        NextDown(block, v[k], blocks);
      }
    }
  }

  /** From the oldest known ancestor of the tip upwards, being on the chain is being an ancestor of the tip. */
  lemma ContainsIffAncestor(c: Chain, p: BlockIndex, blocks: set<BlockIndex>)
    requires Tree(blocks) && c.Valid(blocks) && p in blocks && c.Tip() != null && p.nHeight >= c.Tip().Base()
    ensures c.Contains(p) <==> c.Tip().At(p.nHeight) == p
  {
    hide Tree, BlockIndex.At, BlockIndex.Base;
    if p.nHeight < |c.vChain| {
      SlotLine(c.vChain, |c.vChain| - 1, p.nHeight, blocks);
    } else {
      AtRange(c.Tip(), p.nHeight, blocks);
    }
  }

  /** The successor is the child towards the tip, and only the tip and blocks off the chain have none. */
  lemma NextIsChild(c: Chain, p: BlockIndex, blocks: set<BlockIndex>)
    requires Tree(blocks) && c.Valid(blocks) && p in blocks && c.Tip() != null && p.nHeight >= c.Tip().Base()
    ensures c.Next(p) == null <==> !c.Contains(p) || p == c.Tip()
    ensures c.Next(p) != null ==> c.Next(p).pprev == p
  {
    hide Tree, BlockIndex.At, BlockIndex.Base;
    var top := |c.vChain| - 1;
    if c.Contains(p) && p.nHeight < top {
      SlotLine(c.vChain, top, p.nHeight + 1, blocks);
      AtInside(c.Tip(), p.nHeight + 1, blocks);
      NextDown(c.Tip(), c.vChain[p.nHeight + 1], blocks);
    }
  }

  /** All branches go back to one block at height zero. */
  ghost predicate Rooted(genesis: BlockIndex, blocks: set<BlockIndex>)
    reads blocks
  {
    forall b :: b in blocks ==> b.At(0) == genesis
  }

  /** The highest block that two branches share. */
  method LastCommonAncestor(a: BlockIndex, b: BlockIndex, ghost genesis: BlockIndex, ghost blocks: set<BlockIndex>)
    returns (r: BlockIndex?)
    requires Tree(blocks) && Rooted(genesis, blocks) && a in blocks && b in blocks
    ensures r != null && r in blocks && a.At(r.nHeight) == r && b.At(r.nHeight) == r
    ensures forall h :: a.At(h) != null && a.At(h) == b.At(h) ==> h <= r.nHeight
  {
    hide Tree, BlockIndex.At, BlockIndex.Base;
    var pa: BlockIndex?, pb: BlockIndex? := a, b;
    ghost var links;
    Unbroken(a, genesis, blocks);
    Unbroken(b, genesis, blocks);
    if pa.nHeight > pb.nHeight {
      pa, links := pa.GetAncestor(pb.nHeight, blocks);
    } else if pb.nHeight > pa.nHeight {
      pb, links := pb.GetAncestor(pa.nHeight, blocks);
    }
    while pa != pb && pa != null && pb != null
      invariant pa != null && pb != null && pa in blocks && pb in blocks && pa.nHeight == pb.nHeight
      invariant a.At(pa.nHeight) == pa && b.At(pb.nHeight) == pb
      invariant forall h :: a.At(h) != null && a.At(h) == b.At(h) ==> h <= pa.nHeight
      decreases if pa == null then 0 else pa.nHeight
    {
      NextDown(a, pa, blocks);
      NextDown(b, pb, blocks);
      assert pa.nHeight > 0;
      pa := pa.pprev;
      pb := pb.pprev;
    }
    assert pa == pb;
    r := pa;
  }

  lemma Unbroken(a: BlockIndex, genesis: BlockIndex, blocks: set<BlockIndex>)
    requires Tree(blocks) && Rooted(genesis, blocks) && a in blocks
    ensures a.Base() == 0 && a.At(0) == genesis && a.At(a.nHeight) == a
    ensures forall h :: a.At(h) != null <==> 0 <= h <= a.nHeight
  {
    hide Tree, GetSkipHeight;
    BaseRange(a, blocks);
    AtRange(a, 0, blocks);
    AtInside(a, 0, blocks);
    forall h
      ensures a.At(h) != null <==> 0 <= h <= a.nHeight
    {
      AtInside(a, h, blocks);
    }
  }

  // ---------- block locators ----------

  /** The heights a locator names: one by one at first, then in steps that double, down to zero. */
  function LocatorHeights(h: nat, step: nat, size: nat): (s: seq<nat>)
    requires step > 0
    ensures |s| > 0 && s[0] == h
    decreases h
  {
    if h == 0 then [0]
    else [h] + LocatorHeights(Back(h, step), if size + 1 > 10 then 2 * step else step, size + 1)
  }

  /** max(h - step, 0). */
  function Back(h: nat, step: nat): (r: nat)
    ensures r > 0 ==> r == h - step
    ensures h > 0 && step > 0 ==> r < h
  {
    if h >= step then h - step else 0
  }

  /** A locator runs strictly down and ends at the genesis block. */
  lemma {:induction false} LocatorRunsDown(h: nat, step: nat, size: nat)
    requires step > 0
    ensures var s := LocatorHeights(h, step, size);
      s[|s| - 1] == 0 && forall i, j :: 0 <= i < j < |s| ==> s[i] > s[j]
    decreases h
  {
    if h > 0 {
      LocatorRunsDown(Back(h, step), if size + 1 > 10 then 2 * step else step, size + 1);
    }
  }

  /** Once the steps double, the heights passed grow as the powers of two. */
  lemma {:induction false} LocatorTail(h: nat, step: nat, size: nat)
    requires step > 0 && size >= 10 && |LocatorHeights(h, step, size)| >= 2
    ensures h > step * (Pow2(|LocatorHeights(h, step, size)| - 2) - 1)
    decreases h
  {
    var n := |LocatorHeights(h, step, size)|;
    if n > 2 {
      LocatorTail(Back(h, step), 2 * step, size + 1);
      Doubled(step, Pow2(n - 3));
    }
  }

  lemma Doubled(step: nat, p: nat)
    ensures 2 * step * (p - 1) + step == step * (2 * p - 1)
    ensures p >= 1 ==> 2 * step * (p - 1) >= 0
  {
  }

  /** From each entry the next one goes back by one at first, and from the eleventh on by powers of two. */
  lemma LocatorGaps(h: nat, i: nat)
    requires i + 1 < |LocatorHeights(h, 1, 0)|
    ensures var s := LocatorHeights(h, 1, 0); s[i + 1] == Back(s[i], if i <= 10 then 1 else Pow2(i - 10))
  {
    hide LocatorHeights;
    GapFrom(h, 1, 0, i);
    GapClosed(i);
  }

  /** How far the i-th step goes. */
  function GapAt(step: nat, size: nat, i: nat): nat
    decreases i
  {
    if i == 0 then step else GapAt(if size + 1 > 10 then 2 * step else step, size + 1, i - 1)
  }

  lemma {:induction false} GapFrom(h: nat, step: nat, size: nat, i: nat)
    requires step > 0 && i + 1 < |LocatorHeights(h, step, size)|
    ensures var s := LocatorHeights(h, step, size); s[i + 1] == Back(s[i], GapAt(step, size, i))
    decreases h
  {
    if i > 0 {
      GapFrom(Back(h, step), if size + 1 > 10 then 2 * step else step, size + 1, i - 1);
    }
  }

  lemma GapClosed(i: nat)
    ensures GapAt(1, 0, i) == if i <= 10 then 1 else Pow2(i - 10)
  {
    if i <= 10 {
      GapHead(0, i);
    } else {
      GapSplit(0, i, 10);
      GapTail(1, 10, i - 10);
    }
  }

  lemma {:induction false} GapHead(size: nat, i: nat)
    requires size + i <= 10
    ensures GapAt(1, size, i) == 1
    decreases i
  {
    if i > 0 {
      GapHead(size + 1, i - 1);
    }
  }

  lemma {:induction false} GapSplit(size: nat, i: nat, n: nat)
    requires size + n == 10 && n <= i
    ensures GapAt(1, size, i) == GapAt(1, 10, i - n)
    decreases n
  {
    if n > 0 {
      GapSplit(size + 1, i - 1, n - 1);
    }
  }

  lemma {:induction false} GapTail(step: nat, size: nat, i: nat)
    requires size >= 10
    ensures GapAt(step, size, i) == step * Pow2(i)
    decreases i
  {
    if i > 0 {
      GapTail(2 * step, size + 1, i - 1);
    }
  }

  /** The first entries go back one block at a time. */
  lemma {:induction false} LocatorHead(h: nat, size: nat)
    requires size <= 10
    ensures var s := LocatorHeights(h, 1, size);
      && |s| == (if h <= 10 - size then h + 1 else 10 - size + |LocatorHeights(h - (10 - size), 1, 10)|)
      && forall i :: 0 <= i <= h && i <= 11 - size ==> i < |s| && s[i] == h - i
    decreases 10 - size
  {
    if h > 0 && size < 10 {
      LocatorHead(h - 1, size + 1);
      var rest := LocatorHeights(h - 1, 1, size + 1);
      assert LocatorHeights(h, 1, size) == [h] + rest;
      forall i | 0 <= i <= h && i <= 11 - size
        ensures i <= |rest| && ([h] + rest)[i] == h - i
      {
        assert i > 0 ==> rest[i - 1] == h - 1 - (i - 1);
      }
    }
  }

  /**
   A locator is logarithmic in the height: with n entries past the twelfth the block is higher than
   2^(n - 12) + 9.
   */
  lemma LocatorLength(h: nat)
    ensures var n := |LocatorHeights(h, 1, 0)|; n <= h + 1 && (n >= 12 ==> h > Pow2(n - 12) + 9)
  {
    LocatorHead(h, 0);
    hide LocatorHeights;
    if h > 10 {
      LocatorAtMost(h - 10, 1, 10);
      if |LocatorHeights(h - 10, 1, 10)| >= 2 {
        LocatorTail(h - 10, 1, 10);
      }
    }
  }

  lemma {:induction false} LocatorAtMost(h: nat, step: nat, size: nat)
    requires step > 0
    ensures |LocatorHeights(h, step, size)| <= h + 1
    decreases h
  {
    if h > 0 {
      LocatorAtMost(Back(h, step), if size + 1 > 10 then 2 * step else step, size + 1);
    }
  }

  /** `widest` is the largest step ever held: twice the height at most, so it fits an int below height 2^30. */
  method LocatorEntries(index: BlockIndex?, ghost blocks: set<BlockIndex>) returns (have: seq<nat>, ghost widest: nat)
    requires Tree(blocks) && (index != null ==> index in blocks)
    ensures index == null ==> have == []
    ensures index != null ==> Located(have, index, LocatorHeights(index.nHeight, 1, 0))
    ensures index != null ==> widest <= 1 || widest <= 2 * index.nHeight
  {
    hide *;
    have, widest := [], 1;
    if index == null {
      return;
    }
    var step: nat := 1;
    ghost var heights := LocatorHeights(index.nHeight, 1, 0);
    var at: BlockIndex? := index;
    AtRange(index, index.nHeight, blocks);
    NoneNamed(index);
    while at != null
      invariant step > 0 && |have| < |heights| && Named(have, index, heights)
      invariant at == index.At(heights[|have|])
      invariant at != null ==> at in blocks && Ahead(heights, |have|, at.nHeight, step)
      invariant at != null ==>
        at.nHeight <= index.nHeight && (at.nHeight > 0 ==> step <= 1 + index.nHeight - at.nHeight)
      invariant widest <= 1 || widest <= 2 * index.nHeight
      decreases if at == null then 0 else at.nHeight + 1
    {
      NameOne(have, index, heights, at, blocks);
      Unrolled(heights, |have|, at.nHeight, step);
      have := have + [at.hash];
      if at.nHeight == 0 {
        break;
      }
      var height := Back(at.nHeight, step);
      LinePart(index, at.nHeight, height, blocks);
      ghost var links;
      at, links := at.GetAncestor(height, blocks);
      if |have| > 10 {
        step := step * 2;
      }
      widest := if step > widest then step else widest;
    }
    AllNamed(have, index, heights);
  }

  /** The entries name the ancestors at the first of the given heights. */
  ghost predicate Named(have: seq<nat>, b: BlockIndex, heights: seq<nat>)
    reads b
  {
    && |have| <= |heights|
    && (forall i :: 0 <= i < |have| ==> b.At(heights[i]) != null && have[i] == b.At(heights[i]).hash)
  }

  /** The entries name the ancestors at the given heights, up to the first that is not known. */
  ghost predicate Located(have: seq<nat>, b: BlockIndex, heights: seq<nat>)
    reads b
  {
    Named(have, b, heights) && (|have| < |heights| ==> b.At(heights[|have|]) == null)
  }

  lemma NoneNamed(b: BlockIndex)
    ensures Named([], b, LocatorHeights(b.nHeight, 1, 0)) && Ahead(LocatorHeights(b.nHeight, 1, 0), 0, b.nHeight, 1)
  {
  }

  lemma AllNamed(have: seq<nat>, b: BlockIndex, heights: seq<nat>)
    requires Named(have, b, heights) && (|have| == |heights| || (|have| < |heights| && b.At(heights[|have|]) == null))
    ensures Located(have, b, heights)
  {
  }

  /** What is left of the heights is the locator from `h` on. */
  ghost predicate Ahead(heights: seq<nat>, n: nat, h: nat, step: nat) {
    step > 0 && n < |heights| && heights[n..] == LocatorHeights(h, step, n)
  }

  lemma Unrolled(heights: seq<nat>, n: nat, h: nat, step: nat)
    requires step > 0 && Ahead(heights, n, h, step)
    ensures h == 0 ==> |heights| == n + 1
    ensures h > 0 ==> n + 1 < |heights| && heights[n + 1] == Back(h, step)
    ensures h > 0 ==> Ahead(heights, n + 1, Back(h, step), if n + 1 > 10 then 2 * step else step)
  {
    assert heights[n + 1..] == heights[n..][1..];
  }

  lemma NameOne(have: seq<nat>, b: BlockIndex, heights: seq<nat>, at: BlockIndex, blocks: set<BlockIndex>)
    requires Tree(blocks) && b in blocks && Named(have, b, heights) && |have| < |heights| && b.At(heights[|have|]) == at
    ensures Named(have + [at.hash], b, heights) && b.At(at.nHeight) == at && at.nHeight == heights[|have|]
  {
    AtRange(b, heights[|have|], blocks);
  }
}
