/** Growing the block index, with the work and time totals kept along every branch. */
module BlockMap {
  import opened Bits
  import opened Limbs
  import opened CompactTarget
  import opened BlockProof
  import opened BlockTree
  import opened SkipHeights
  import opened ActiveChain

  /** Totals follow from the parent's: the time maximum and the work modulo 2^256. */
  ghost predicate Tallied(b: BlockIndex)
    reads b, if b.pprev == null then {} else {b.pprev}
  {
    && b.nTimeMax == (if b.pprev != null && b.pprev.nTimeMax > b.nTime then b.pprev.nTimeMax else b.nTime)
    && b.nChainWork == Mod((if b.pprev == null then 0 else b.pprev.nChainWork) + Proof(b.nBits), Place(WIDTH))
  }

  ghost predicate AllTallied(blocks: set<BlockIndex>)
    reads blocks
  {
    forall b :: b in blocks ==> (b.pprev != null ==> b.pprev in blocks) && Tallied(b)
  }

  /** The work of all blocks of a branch together. */
  ghost function WorkOf(line: seq<BlockIndex>): nat {
    if line == [] then 0 else WorkOf(line[..|line| - 1]) + Proof(line[|line| - 1].nBits)
  }

  lemma WorkPush(line: seq<BlockIndex>, b: BlockIndex)
    ensures WorkOf(line + [b]) == WorkOf(line) + Proof(b.nBits)
  {
    assert (line + [b])[..|line|] == line;
  }

  /** The recorded work is the work of the whole branch, modulo 2^256. */
  lemma {:induction false} WorkOfLine(b: BlockIndex, blocks: set<BlockIndex>)
    requires Tree(blocks) && AllTallied(blocks) && b in blocks
    ensures b.nChainWork == Mod(WorkOf(b.line), Place(WIDTH))
    decreases |b.line|
  {
    hide *;
    ParentLine(b, blocks);
    WorkStep(b, blocks);
    if b.pprev == null {
      WorkPush([], b);
      NoWork();
      assert [] + [b] == [b];
    } else {
      var p := b.pprev;
      WorkOfLine(p, blocks);
      WorkPush(p.line, b);
      ModAdd(WorkOf(p.line), Proof(b.nBits), Place(WIDTH));
    }
  }

  lemma WorkStep(b: BlockIndex, blocks: set<BlockIndex>)
    requires AllTallied(blocks) && b in blocks
    ensures b.nChainWork == Mod((if b.pprev == null then 0 else b.pprev.nChainWork) + Proof(b.nBits), Place(WIDTH))
  {
    hide Mod, Place, Proof;
    assert Tallied(b);
  }

  lemma NoWork()
    ensures WorkOf([]) == 0
  {
  }

  /** The recorded time maximum is the latest time on the branch. */
  lemma {:induction false} TimeOfLine(b: BlockIndex, blocks: set<BlockIndex>)
    requires Tree(blocks) && AllTallied(blocks) && b in blocks
    ensures Latest(b.nTimeMax, b.line)
    decreases |b.line|
  {
    hide Mod, Place, Proof, Tree;
    ParentLine(b, blocks);
    assert Tallied(b);
    if b.pprev == null {
      assert b.line[0].nTime == b.nTimeMax;
    } else {
      TimeOfLine(b.pprev, blocks);
      LatestPush(b.pprev.nTimeMax, b.pprev.line, b);
    }
  }

  ghost predicate Latest(t: nat, line: seq<BlockIndex>) {
    && (forall i :: 0 <= i < |line| ==> line[i].nTime <= t)
    && (exists i :: 0 <= i < |line| && line[i].nTime == t)
  }

  lemma LatestPush(t: nat, line: seq<BlockIndex>, b: BlockIndex)
    requires Latest(t, line)
    ensures Latest(if t > b.nTime then t else b.nTime, line + [b])
  {
    var all := line + [b];
    var j :| 0 <= j < |line| && line[j].nTime == t;
    assert all[j] == line[j] && all[|line|] == b;
  }

  lemma ParentLine(b: BlockIndex, blocks: set<BlockIndex>)
    requires Tree(blocks) && b in blocks
    ensures b.pprev == null ==> b.line == [b]
    ensures b.pprev != null ==> b.pprev in blocks && b.line == b.pprev.line + [b]
  {
    hide GetSkipHeight, BlockIndex.At;
    assert Placed(b, blocks);
    if b.pprev != null {
      var n := |b.line| - 1;
      assert b.pprev.line == b.line[..n];
    }
  }

  lemma ModAdd(x: nat, y: nat, m: nat)
    requires m > 0
    ensures Mod(Mod(x, m) + y, m) == Mod(x + y, m)
  {
    var q, r := x / m, x % m;
    DivModSplit(x, m);
    DivModSplit(r + y, m);
    var q2, r2 := (r + y) / m, (r + y) % m;
    assert (q + q2) * m == q * m + q2 * m;
    DivModUnique(x + y, m, q + q2, r2);
  }

  /** While the total fits 256 bits, work grows along every branch, strictly over valid targets. */
  lemma {:induction false} WorkGrows(b: BlockIndex, h: nat, blocks: set<BlockIndex>)
    requires Tree(blocks) && AllTallied(blocks) && b in blocks && WorkOf(b.line) < Place(WIDTH)
    requires b.At(h) != null
    ensures b.At(h).nChainWork <= b.nChainWork
    ensures h < b.nHeight && Proof(b.nBits) > 0 ==> b.At(h).nChainWork < b.nChainWork
  {
    LinePrefix(b, h, blocks);
    var a, k := b.At(h), h - b.Base();
    hide *;
    WorkOfLine(a, blocks);
    WorkOfLine(b, blocks);
    WorkPrefix(b.line, k + 1);
    ModSmall(WorkOf(a.line), Place(WIDTH));
    ModSmall(WorkOf(b.line), Place(WIDTH));
    if h < b.nHeight {
      WorkLast(b, k + 1, blocks);
    }
  }

  lemma {:induction false} WorkPrefix(line: seq<BlockIndex>, k: nat)
    requires k <= |line|
    ensures WorkOf(line[..k]) <= WorkOf(line)
    decreases |line|
  {
    if k == |line| {
      assert line[..k] == line;
    } else {
      WorkPrefix(line[..|line| - 1], k);
      assert line[..|line| - 1][..k] == line[..k];
    }
  }

  lemma WorkLast(b: BlockIndex, k: nat, blocks: set<BlockIndex>)
    requires Tree(blocks) && b in blocks && k < |b.line|
    ensures WorkOf(b.line[..k]) + Proof(b.nBits) <= WorkOf(b.line)
  {
    assert Placed(b, blocks);
    hide Proof, GetSkipHeight;
    var most := b.line[..|b.line| - 1];
    WorkPrefix(most, k);
    assert most[..k] == b.line[..k];
  }

  /** The header with the most work. */
  ghost predicate Best(best: BlockIndex?, blocks: set<BlockIndex>)
    reads blocks
  {
    if blocks == {} then best == null
    else best in blocks && forall b :: b in blocks ==> b.nChainWork <= best.nChainWork
  }

  /** Every line goes back to height zero, so no skip height is out of reach. */
  ghost predicate AllGrounded(blocks: set<BlockIndex>)
    reads blocks`line, blocks`nHeight
  {
    forall b :: b in blocks ==> b.Base() == 0
  }

  lemma GroundedOne(r: BlockIndex, blocks: set<BlockIndex>)
    requires AllGrounded(blocks) && AllSkip(blocks) && r.Base() == 0 && (r.pprev != null ==> r.pskip != null)
    ensures AllGrounded(blocks + {r}) && AllSkip(blocks + {r})
  {
  }

  /** With every line grounded, there is a block at the skip height. */
  lemma SkipThere(b: BlockIndex, blocks: set<BlockIndex>)
    requires Tree(blocks) && b in blocks && b.Base() == 0 && b.nHeight > 0
    ensures b.At(GetSkipHeight(b.nHeight)) != null
  {
    SkipsBack(b.nHeight);
    hide GetSkipHeight;
    assert Placed(b, blocks);
  }

  class BlockManager {
    var index: map<nat, BlockIndex>

    ghost predicate Valid()
      reads this, index.Values
    {
      && Tree(index.Values) && AllTallied(index.Values) && AllSkip(index.Values) && AllGrounded(index.Values)
      && forall h :: h in index ==> index[h].hash == h
    }

    constructor ()
      ensures Valid() && index == map[]
    {
      index := map[];
    }

    /** Adds a header; a block hash cannot be its own parent hash. */
    method AddToBlockIndex(hash: nat, hashPrev: nat, nTime: nat, nBits: Word32, bestHeader: BlockIndex?)
      returns (r: BlockIndex, best: BlockIndex?)
      requires Valid() && hash != hashPrev && Best(bestHeader, index.Values)
      modifies this
      ensures Valid() && Best(best, index.Values)
      ensures hash in old(index) ==> r == old(index)[hash] && index == old(index) && best == bestHeader
      ensures hash !in old(index) ==>
        && fresh(r) && index == old(index)[hash := r] && r.hash == hash && r.nTime == nTime && r.nBits == nBits
        && r.pprev == (if hashPrev in old(index) then old(index)[hashPrev] else null)
        && r.nHeight == (if r.pprev == null then 0 else r.pprev.nHeight + 1)
        && (r.pprev != null ==> r.pskip == r.At(GetSkipHeight(r.nHeight)))
    {
      hide Tree, AllTallied, Tallied, Best, GetSkipHeight, BlockIndex.At, AllSkip, BlockIndex.Base;
      if hash in index {
        return index[hash], bestHeader;
      }
      ghost var blocks := index.Values;
      r := new BlockIndex(hash, nTime, nBits);
      index := index[hash := r];
      InsertValue(old(index), hash, r);
      Attach(r, if hashPrev in index then index[hashPrev] else null, blocks);
      best := if bestHeader == null || bestHeader.nChainWork < r.nChainWork then r else bestHeader;
      TallyOne(r, blocks);
      GroundedOne(r, blocks);
      BestOne(bestHeader, r, blocks);
    }
  }

  /** Links a new block below its parent and sets its skip link and totals. */
  method Attach(r: BlockIndex, parent: BlockIndex?, ghost blocks: set<BlockIndex>)
    requires Tree(blocks) && r !in blocks && (parent != null ==> parent in blocks && parent.Base() == 0)
    requires r.pprev == null && r.pskip == null && r.nHeight == 0 && r.line == [r]
    modifies r
    ensures Tree(blocks + {r}) && Tallied(r) && r.pprev == parent
    ensures r.nHeight == (if parent == null then 0 else parent.nHeight + 1)
    ensures parent != null ==> r.pskip == r.At(GetSkipHeight(r.nHeight)) && r.pskip != null
    ensures r.Base() == 0
  {
    hide Tree, Mod, Place, Proof, GetSkipHeight, BlockIndex.At, Walk;
    if parent != null {
      r.pprev := parent;
      r.nHeight := parent.nHeight + 1;
      r.line := parent.line + [r];
      Grown(r, blocks);
      SkipThere(r, blocks + {r});
      r.BuildSkip(blocks + {r});
    } else {
      Grown(r, blocks);
    }
    r.nTimeMax := if parent != null && parent.nTimeMax > r.nTime then parent.nTimeMax else r.nTime;
    r.nChainWork := Mod((if parent == null then 0 else parent.nChainWork) + Proof(r.nBits), Place(WIDTH));
  }

  lemma TallyOne(r: BlockIndex, blocks: set<BlockIndex>)
    requires AllTallied(blocks) && Tallied(r) && (r.pprev != null ==> r.pprev in blocks)
    ensures AllTallied(blocks + {r})
  {
    hide Tallied;
  }

  lemma BestOne(best: BlockIndex?, r: BlockIndex, blocks: set<BlockIndex>)
    requires Best(best, blocks)
    ensures Best(if best == null || best.nChainWork < r.nChainWork then r else best, blocks + {r})
  {
  }

  lemma InsertValue(m: map<nat, BlockIndex>, k: nat, b: BlockIndex)
    requires k !in m
    ensures m[k := b].Values == m.Values + {b}
  {
    var n := m[k := b];
    forall x | x in m.Values + {b}
      ensures x in n.Values
    {
      if x in m.Values {
        var j :| j in m && m[j] == x;
        assert n[j] == x;
      } else {
        assert n[k] == x;
      }
    }
  }

  /** Time maxima never fall along a chain. */
  lemma {:induction false} TimeRises(v: seq<BlockIndex?>, j: nat, k: nat, blocks: set<BlockIndex>)
    requires Linked(v, blocks) && AllTallied(blocks) && j <= k < |v|
    requires forall i :: 0 <= i < |v| ==> v[i] != null && (i > 0 ==> v[i].pprev != null)
    ensures v[j].nTimeMax <= v[k].nTimeMax
  {
    hide Mod, Place, Proof;
    if j < k {
      TimeRises(v, j, k - 1, blocks);
      assert Tallied(v[k]);
    }
  }

  /** The search order of FindEarliestAtLeast: too early or too low. */
  ghost predicate Before(b: BlockIndex?, nTime: int, height: int)
    reads b
  {
    b != null && (b.nTimeMax < nTime || b.nHeight < height)
  }

  /** The lowest block of the chain with at least the given time maximum and height, found by bisection. */
  method FindEarliestAtLeast(c: Chain, nTime: int, height: int, ghost blocks: set<BlockIndex>) returns (r: BlockIndex?)
    requires c.Valid(blocks) && AllTallied(blocks)
    requires forall i :: 0 <= i < |c.vChain| ==> c.vChain[i] != null && (i > 0 ==> c.vChain[i].pprev != null)
    ensures r == null ==> forall i :: 0 <= i < |c.vChain| ==> Before(c.vChain[i], nTime, height)
    ensures r != null ==>
      && r.nTimeMax >= nTime && r.nHeight >= height && r.nHeight < |c.vChain| && c.vChain[r.nHeight] == r
      && forall i :: 0 <= i < r.nHeight ==> Before(c.vChain[i], nTime, height)
  {
    hide AllTallied;
    var first, count := 0, |c.vChain|;
    while count > 0
      invariant 0 <= first && 0 <= count && first + count <= |c.vChain|
      invariant forall i :: 0 <= i < first ==> Before(c.vChain[i], nTime, height)
      invariant first + count < |c.vChain| ==> !Before(c.vChain[first + count], nTime, height)
    {
      var step := count / 2;
      var it := first + step;
      if c.vChain[it].nTimeMax < nTime || c.vChain[it].nHeight < height {
        forall i | 0 <= i <= it
          ensures Before(c.vChain[i], nTime, height)
        {
          TimeRises(c.vChain, i, it, blocks);
        }
        first := it + 1;
        count := count - (step + 1);
      } else {
        count := step;
      }
    }
    r := if first == |c.vChain| then null else c.vChain[first];
  }
}
