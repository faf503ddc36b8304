/**
 The block index: a tree of blocks linked to their parents, with skip links that
 make finding an ancestor fast.
 */
module BlockTree {
  import opened CompactTarget
  import opened SkipHeights

  // ---------- the tree ----------

  class BlockIndex {
    const hash: nat
    const nTime: nat
    const nBits: Word32
    var pprev: BlockIndex?
    var pskip: BlockIndex?
    var nHeight: nat
    var nTimeMax: nat
    var nChainWork: nat
    /** This block and its ancestors, the oldest first. */
    ghost var line: seq<BlockIndex>

    constructor (hash: nat, nTime: nat, nBits: Word32)
      ensures this.hash == hash && this.nTime == nTime && this.nBits == nBits
      ensures pprev == null && pskip == null && nHeight == 0 && nTimeMax == 0 && nChainWork == 0 && line == [this]
    {
      this.hash, this.nTime, this.nBits := hash, nTime, nBits;
      pprev, pskip, nHeight, nTimeMax, nChainWork := null, null, 0, 0, 0;
      line := [this];
    }

    /** The height of the oldest known ancestor. */
    ghost function Base(): int
      reads this`line, this`nHeight
    {
      nHeight - |line| + 1
    }

    /** The ancestor at a height, this block included. */
    ghost function At(h: int): BlockIndex?
      reads this`line, this`nHeight
    {
      if Base() <= h <= nHeight then line[h - Base()] else null
    }

    /**
     Finds an ancestor by skip links where they do not overshoot. With all skip links in place it
     follows at most n(n + 1) links, for a height of n bits.
     */
    method GetAncestor(height: int, ghost blocks: set<BlockIndex>) returns (r: BlockIndex?, ghost links: nat)
      requires Tree(blocks) && this in blocks
      ensures r == Walk(this, height, blocks)
      ensures r == At(height)
      ensures r != null ==> r in blocks && r.nHeight == height
      ensures AllSkip(blocks) ==> links <= Gap(nHeight, 0) * (Gap(nHeight, 0) + 1)
    {
      hide *;
      WalkIsAt(this, height, blocks);
      AtRange(this, height, blocks);
      links := 0;
      if height > nHeight || height < 0 {
        return null, 0;
      }
      StepsBound(nHeight, height);
      var walk := this;
      var heightWalk: int := nHeight;
      while heightWalk > height
        invariant walk in blocks && walk.nHeight == heightWalk >= height
        invariant walk.At(height) == At(height)
        invariant AllSkip(blocks) ==> links + Steps(heightWalk, height) <= Steps(nHeight, height)
        decreases heightWalk
      {
        StepsNext(heightWalk, height);
        if AllSkip(blocks) {
          SkipOrNot(walk, blocks);
        }
        var heightSkip := GetSkipHeight(heightWalk);
        var heightSkipPrev := GetSkipHeight(heightWalk - 1);
        SkipsBack(heightWalk);
        if walk.pskip != null
           && (heightSkip == height
               || (heightSkip > height && !(heightSkipPrev < heightSkip - 2 && heightSkipPrev >= height)))
        {
          SkipStep(walk, height, blocks);
          walk := walk.pskip;
          heightWalk := heightSkip;
        } else {
          ParentStep(walk, height, blocks);
          if walk.pprev == null {
            return null, links;
          }
          walk := walk.pprev;
          heightWalk := heightWalk - 1;
        }
        links := links + 1;
      }
      AtRange(walk, height, blocks);
      r := walk;
    }

    /** Gives a block its skip link; every block of the tree stays in place. */
    method BuildSkip(ghost blocks: set<BlockIndex>)
      requires Tree(blocks) && this in blocks
      modifies this`pskip
      ensures Tree(blocks)
      ensures pskip ==
        if pprev != null && At(GetSkipHeight(nHeight)) != null then At(GetSkipHeight(nHeight)) else old(pskip)
    {
      hide GetSkipHeight, Lineage, At, Walk;
      if pprev != null {
        var skip := GetSkipHeight(nHeight);
        AtRange(this, skip, blocks);
        SkipsBack(nHeight);
        ParentStep(this, skip, blocks);
        var ancestor, _ := pprev.GetAncestor(skip, blocks);
        if ancestor != null {
          pskip := ancestor;
        }
      }
    }
  }

  /** The line of a block holds its ancestors at consecutive heights, each with its own part of the line. */
  ghost predicate Lineage(b: BlockIndex, blocks: set<BlockIndex>)
    reads b`line, b`nHeight, blocks`line, blocks`nHeight
  {
    && |b.line| > 0 && b.line[|b.line| - 1] == b && b.Base() >= 0
    && (forall i :: 0 <= i < |b.line| ==> b.line[i] in blocks)
    && (forall i :: 0 <= i < |b.line| ==> b.line[i].line == b.line[..i + 1] && b.line[i].nHeight == b.Base() + i)
  }

  ghost predicate Placed(b: BlockIndex, blocks: set<BlockIndex>)
    reads b`line, b`nHeight, b`pprev, b`pskip, blocks`line, blocks`nHeight
  {
    && Lineage(b, blocks)
    && b.pprev == (if |b.line| == 1 then null else b.line[|b.line| - 2])
    && (b.pskip != null ==> b.pprev != null && b.pskip == b.At(GetSkipHeight(b.nHeight)))
  }

  /** Parents are in the index one height below, and skip links lead to the ancestor at the skip height. */
  ghost predicate Tree(blocks: set<BlockIndex>)
    reads blocks`line, blocks`nHeight, blocks`pprev, blocks`pskip
  {
    forall b :: b in blocks ==> Placed(b, blocks)
  }

  /** Every block with a parent has its skip link. */
  ghost predicate AllSkip(blocks: set<BlockIndex>)
    reads blocks`pprev, blocks`pskip
  {
    forall b :: b in blocks && b.pprev != null ==> b.pskip != null
  }

  lemma SkipOrNot(b: BlockIndex, blocks: set<BlockIndex>)
    requires b in blocks && AllSkip(blocks)
    ensures b.pprev != null ==> b.pskip != null
  {
  }

  /** The block at a height that following parents leads to, or null when the walk breaks off. */
  ghost function Walk(b: BlockIndex?, h: int, blocks: set<BlockIndex>): BlockIndex?
    requires Tree(blocks) && (b != null ==> b in blocks)
    reads blocks`line, blocks`nHeight, blocks`pprev, blocks`pskip
    decreases if b == null then 0 else |b.line|
  {
    if b == null || h > b.nHeight then null
    else if h == b.nHeight then b
    else Walk(b.pprev, h, blocks)
  }

  lemma {:induction false} WalkIsAt(b: BlockIndex, h: int, blocks: set<BlockIndex>)
    requires Tree(blocks) && b in blocks
    ensures Walk(b, h, blocks) == b.At(h)
    decreases |b.line|
  {
    hide GetSkipHeight;
    if h < b.nHeight && b.pprev != null {
      ParentStep(b, h, blocks);
      WalkIsAt(b.pprev, h, blocks);
    }
  }

  lemma AtRange(b: BlockIndex, h: int, blocks: set<BlockIndex>)
    requires Tree(blocks) && b in blocks
    ensures h < 0 || h > b.nHeight ==> b.At(h) == null
    ensures b.At(b.nHeight) == b && (b.pprev != null ==> b.nHeight > 0)
    ensures b.At(h) != null ==> b.At(h) in blocks && b.At(h).nHeight == h
  {
    assert Placed(b, blocks);
  }

  lemma ParentStep(b: BlockIndex, h: int, blocks: set<BlockIndex>)
    requires Tree(blocks) && b in blocks && h < b.nHeight
    ensures b.pprev == null ==> b.At(h) == null
    ensures b.pprev != null ==> b.pprev in blocks && b.pprev.nHeight == b.nHeight - 1 && b.pprev.At(h) == b.At(h)
  {
    hide GetSkipHeight;
    if b.pprev != null {
      LinePart(b, b.nHeight - 1, h, blocks);
    }
  }

  lemma SkipStep(b: BlockIndex, h: int, blocks: set<BlockIndex>)
    requires Tree(blocks) && b in blocks && b.pskip != null && h <= GetSkipHeight(b.nHeight)
    ensures b.pskip in blocks && b.pskip.nHeight == GetSkipHeight(b.nHeight) && b.pskip.At(h) == b.At(h)
  {
    hide GetSkipHeight;
    LinePart(b, GetSkipHeight(b.nHeight), h, blocks);
  }

  /** An ancestor has the same ancestors. */
  lemma LinePart(b: BlockIndex, k: int, h: int, blocks: set<BlockIndex>)
    requires Tree(blocks) && b in blocks && h <= k && b.At(k) != null
    ensures b.At(k) in blocks && b.At(k).nHeight == k && b.At(k).At(h) == b.At(h)
    ensures b.At(k).Base() == b.Base()
  {
    hide Tree;
    LineageOf(b, blocks);
  }

  lemma LineageOf(b: BlockIndex, blocks: set<BlockIndex>)
    requires Tree(blocks) && b in blocks
    ensures Lineage(b, blocks)
  {
    hide GetSkipHeight, Lineage;
    assert Placed(b, blocks);
  }

  /** The line of an ancestor is the first part of the line. */
  lemma LinePrefix(b: BlockIndex, k: int, blocks: set<BlockIndex>)
    requires Tree(blocks) && b in blocks && b.At(k) != null
    ensures b.At(k) in blocks && b.Base() <= k <= b.nHeight < b.Base() + |b.line|
    ensures b.At(k).line == b.line[..k - b.Base() + 1]
  {
    hide Tree;
    LineageOf(b, blocks);
  }

  /** A new block fits the tree as a root or below a block of the tree. */
  lemma Grown(r: BlockIndex, blocks: set<BlockIndex>)
    requires Tree(blocks) && r !in blocks && r.pskip == null
    requires r.pprev == null ==> r.line == [r] && r.nHeight == 0
    requires r.pprev != null ==> r.pprev in blocks && r.line == r.pprev.line + [r] && r.nHeight == r.pprev.nHeight + 1
    ensures Tree(blocks + {r})
  {
    hide GetSkipHeight, BlockIndex.At;
    var all := blocks + {r};
    forall b | b in all
      ensures Placed(b, all)
    {
      if b == r {
        NewLine(r, blocks);
      } else {
        assert Placed(b, blocks);
      }
    }
  }

  lemma NewLine(r: BlockIndex, blocks: set<BlockIndex>)
    requires Tree(blocks) && r !in blocks
    requires r.pprev == null ==> r.line == [r] && r.nHeight == 0
    requires r.pprev != null ==> r.pprev in blocks && r.line == r.pprev.line + [r] && r.nHeight == r.pprev.nHeight + 1
    ensures Lineage(r, blocks + {r})
    ensures r.pprev == if |r.line| == 1 then null else r.line[|r.line| - 2]
  {
    hide GetSkipHeight, BlockIndex.At;
    if r.pprev != null {
      var p := r.pprev;
      assert Placed(p, blocks);
      forall i | 0 <= i < |r.line|
        ensures r.line[i].line == r.line[..i + 1] && r.line[i].nHeight == r.Base() + i
      {
        if i < |p.line| {
          assert r.line[i] == p.line[i];
          assert r.line[..i + 1] == p.line[..i + 1];
        } else {
          assert r.line[..i + 1] == r.line;
        }
      }
    }
  }
}
