/**
 Graphs that show where GHOSTDAG as coded leaves its comments: a block that is merged
 although it is behind the selected parent, chain blocks beyond the cut that are not in
 the past of merged blocks, and a cut that changes a colour. The last two for every K.
 */
module DagWitness {
  import opened Dag
  import opened Mergeset
  import opened Ghostdag
  import opened AncestorSearch
  import opened DagNode

  // ---------- merged although behind ----------

  /**
   Behind a link between equal heights the search does not recognise an ancestor of the selected
   parent, so it is merged once more.
   */
  lemma MergedTwice()
    ensures var g := FlatLink(); Linked(g) && NoneRises(g) && Known(g, [6, 8])
    ensures var g := FlatLink(); Reaches(g, 3, 6) && Collected(g, IsAncestor, [6, 8], 6, 3) && !Merged(g, [6, 8], 6, 3)
  {
    var g := FlatLink();
    FlatLinkDenied();
    FlatLinkParents();
    hide Linked, NoneRises, Found;
    AnswerIsFound(g, 3, 6);
    NotBehind();
    hide IsAncestor;
    MetParent(g, IsAncestor, [6, 8], 6, 8);
    assert IsParent(g, 3, 8);
    MetNext(g, IsAncestor, [6, 8], 6, 8, 3);
  }

  lemma NotBehind()
    ensures !IsAncestor(FlatLink(), 8, 6)
  {
    var g := FlatLink();
    FlatLinkLevels();
    FlatLinkParents();
    hide IsAncestor, Linked;
    if IsAncestor(g, 8, 6) {
      AnswerSafe(g);
      var c := ChildOnPath(g, 8, 6);
      FlatNoChild(c);
    }
  }

  lemma ChildOnPath(g: Graph, a: Hash, b: Hash) returns (c: Hash)
    requires Reaches(g, a, b) && a != b
    ensures IsParent(g, a, c)
  {
    var s :| Joins(g, s, b, a);
    c := s[|s| - 2];
    assert IsParent(g, s[|s| - 2 + 1], s[|s| - 2]);
  }

  lemma FlatNoChild(c: Hash)
    ensures !IsParent(FlatLink(), 8, c)
  {
    FlatLinkParents();
  }

  /** The headers of that graph, and of the one with a higher parent, are all in order as they come. */
  lemma FlatHeadersOk()
    ensures var g := map[1 := Bare(NULL, [], 0), 2 := Bare(1, [], 1), 3 := Bare(2, [], 2), 4 := Bare(1, [], 1)];
      HeaderOk(g, Header(5, 4, [3], 1)) && NewEntry(g, Header(5, 4, [3], 1)) == Bare(4, [3], 2)
  {
    var g := map[1 := Bare(NULL, [], 0), 2 := Bare(1, [], 1), 3 := Bare(2, [], 2), 4 := Bare(1, [], 1)];
    assert Down(g, 3, 1) == 2;
    assert KnownOf(g, [3]) == [3];
  }

  lemma HighHeaderOk()
    ensures var g := map[1 := Bare(NULL, [], 0), 2 := Bare(1, [], 1), 3 := Bare(2, [], 2), 4 := Bare(3, [], 3),
      5 := Bare(1, [], 1)];
      HeaderOk(g, Header(6, 5, [4], 1)) && NewEntry(g, Header(6, 5, [4], 1)) == Bare(5, [4], 2)
  {
    var g := map[1 := Bare(NULL, [], 0), 2 := Bare(1, [], 1), 3 := Bare(2, [], 2), 4 := Bare(3, [], 3),
      5 := Bare(1, [], 1)];
    assert Down(g, 3, 1) == 2 && Down(g, 4, 1) == Down(g, 3, 1);
    assert KnownOf(g, [4]) == [4];
  }

  /** A header that is refused when its further parent is known is accepted when it comes before that parent. */
  lemma HeaderOrderMatters()
    ensures var g := map[1 := Bare(NULL, [], 0), 2 := Bare(1, [], 1)];
      HeaderOk(g, Header(4, 2, [3], 1)) && !HeaderOk(Announced(g, Header(3, 2, [], 1)), Header(4, 2, [3], 1))
  {
    var g := map[1 := Bare(NULL, [], 0), 2 := Bare(1, [], 1)];
    var g' := Announced(g, Header(3, 2, [], 1));
    assert g' == g[3 := Bare(2, [], 2)];
    assert Down(g', 2, 1) == 2 && Down(g', 3, 1) == Down(g', 2, 1);
    assert [3][0] in g' && Descends(g', [3][0], 2);
  }

  // ---------- a chain with a side block ----------

  /**
   A chain of blocks 1 to n with a side block n + 1 on block 1, which block m of the chain, if
   there is one, has as a further parent. The data is that of a large enough chain: all side
   blocks red.
   */
  function Ladder(n: nat, m: nat): Graph
    requires n >= 2
  {
    map h: Hash | 1 <= h <= n + 1 :: Rung(n, m, h)
  }

  function Rung(n: nat, m: nat, h: Hash): Block
    requires 1 <= h <= n + 1 && n >= 2
  {
    if h == n + 1 then Block(1, [], 1, 1, GhostdagData(1, 1, [], [], 0))
    else
      var side := if h == m then [n + 1] else [];
      Block(h - 1, side, h - 1, 1, GhostdagData(h - 1, h - 1, [], side, 0))
  }

  lemma RungParents(n: nat, m: nat, h: Hash, p: Hash)
    requires n >= 2 && 1 <= h <= n + 1 && m != 1
    ensures IsParent(Ladder(n, m), p, h) <==>
      if h == n + 1 then p == 1 else (h > 1 && p == h - 1) || (h == m && p == n + 1)
  {
  }

  /** Scores and heights rise along every link. */
  ghost predicate Climbs(g: Graph) {
    Linked(g) && forall p, c :: IsParent(g, p, c) ==> Score(g, p) < Score(g, c) && g[p].height < g[c].height
  }

  lemma ClimbsScored(g: Graph, h: Hash)
    requires Climbs(g) && h in g
    ensures Scored(g, h)
  {
  }

  lemma LadderClimbs(n: nat, m: nat)
    requires n >= 2 && m != 1 && m != 2
    ensures Climbs(Ladder(n, m))
  {
    var g := Ladder(n, m);
    forall h | h in g
      ensures EntryLinked(g, h)
    {
      RungLinked(n, m, h);
    }
    forall p, h | IsParent(g, p, h)
      ensures Score(g, p) < Score(g, h) && g[p].height < g[h].height
    {
      RungParents(n, m, h, p);
    }
  }

  lemma RungLinked(n: nat, m: nat, h: Hash)
    requires n >= 2 && m != 1 && h in Ladder(n, m)
    ensures EntryLinked(Ladder(n, m), h)
  {
    var g := Ladder(n, m);
    forall p | p in g[h].Parents()
      ensures p in g
    {
    }
  }

  /** On the chain, a block reaches exactly those below it, and the side block once that is merged. */
  lemma {:induction false} LadderUp(n: nat, m: nat, a: Hash, b: Hash)
    requires n >= 2 && m != 1 && m != 2 && 1 <= b <= n
    ensures Reaches(Ladder(n, m), a, b) <==> 1 <= a <= b || (a == n + 1 && 2 < m <= b)
    decreases b
  {
    var g := Ladder(n, m);
    assert b in g;
    hide Reaches, Ladder;
    if a == b {
      SelfReached(g, a);
    } else if b == 1 {
      LadderFirst(n, m, a);
    } else {
      LadderUp(n, m, a, b - 1);
      RungParents(n, m, b, b - 1);
      ParentReached(g, b - 1, b);
      if Reaches(g, a, b - 1) {
        ReachesThrough(g, a, b - 1, b);
      } else if b == m && a == n + 1 {
        RungParents(n, m, b, n + 1);
        ParentReached(g, n + 1, b);
      } else if Reaches(g, a, b) {
        var p := ParentOnPath(g, a, b);
        RungParents(n, m, b, p);
        LadderSide(n, m, a);
      }
    }
  }

  lemma LadderFirst(n: nat, m: nat, a: Hash)
    requires n >= 2 && m != 1 && a != 1
    ensures !Reaches(Ladder(n, m), a, 1)
  {
    if Reaches(Ladder(n, m), a, 1) {
      var q := ParentOnPath(Ladder(n, m), a, 1);
      RungParents(n, m, 1, q);
    }
  }

  lemma LadderSide(n: nat, m: nat, a: Hash)
    requires n >= 2 && m != 1 && m != 2
    ensures Reaches(Ladder(n, m), a, n + 1) <==> a == 1 || a == n + 1
  {
    var g := Ladder(n, m);
    SelfReached(g, n + 1);
    RungParents(n, m, n + 1, 1);
    ParentReached(g, 1, n + 1);
    if Reaches(g, a, n + 1) && a != n + 1 {
      var p := ParentOnPath(g, a, n + 1);
      RungParents(n, m, n + 1, p);
      if a != 1 {
        LadderFirst(n, m, a);
      }
    }
  }

  ghost predicate Straight(g: Graph, n: nat) {
    forall h: Hash :: 1 <= h <= n ==> h in g && g[h].data.selectedParent == h - 1
  }

  ghost predicate CountsDown(s: seq<Hash>, b: nat) {
    |s| == b && forall i :: 0 <= i < b ==> s[i] == b - i
  }

  lemma CountsOn(s: seq<Hash>, b: nat)
    requires CountsDown(s, b)
    ensures CountsDown([b + 1] + s, b + 1)
  {
  }

  lemma StraightStep(g: Graph, n: nat, b: nat)
    requires Climbs(g) && Straight(g, n) && 1 < b <= n
    ensures Scored(g, b) && Scored(g, b - 1) && WholeChain(g, b) == [b] + WholeChain(g, b - 1)
  {
    hide Climbs, Scored;
    ClimbsScored(g, b);
    ClimbsScored(g, b - 1);
  }

  lemma {:induction false} StraightChain(g: Graph, n: nat, b: nat)
    requires Climbs(g) && Straight(g, n) && 1 <= b <= n
    ensures Scored(g, b) && CountsDown(WholeChain(g, b), b)
  {
    hide Climbs, Scored;
    ClimbsScored(g, b);
    if b == 1 {
      assert WholeChain(g, 1) == [1];
    } else {
      hide WholeChain, CountsDown;
      StraightStep(g, n, b);
      StraightChain(g, n, b - 1);
      CountsOn(WholeChain(g, b - 1), b - 1);
    }
  }

  /** The selected chain of a chain block runs down to block 1. */
  lemma LadderChain(n: nat, m: nat, b: Hash)
    requires n >= 2 && m != 1 && m != 2 && 1 <= b <= n
    ensures Scored(Ladder(n, m), b) && CountsDown(WholeChain(Ladder(n, m), b), b)
  {
    var g := Ladder(n, m);
    LadderClimbs(n, m);
    hide Scored, WholeChain, Climbs, CountsDown;
    assert Straight(g, n);
    hide Ladder, Rung;
    StraightChain(g, n, b);
  }

  ghost function UpTo(n: nat): set<Hash> {
    if n == 0 then {} else UpTo(n - 1) + {n}
  }

  lemma {:induction false} UpToIs(n: nat)
    ensures |UpTo(n)| == n && forall h: Hash :: h in UpTo(n) <==> 1 <= h <= n
  {
    if n > 0 {
      UpToIs(n - 1);
    }
  }

  lemma LadderSize(n: nat, m: nat)
    requires n >= 2
    ensures |Ladder(n, m)| == n + 1
  {
    UpToIs(n + 1);
    assert Ladder(n, m).Keys == UpTo(n + 1);
  }

  /** On a ladder within the node limit the search is right, so what follows holds for the code's own ancestor test. */
  lemma LadderExact(n: nat, m: nat)
    requires 2 <= n < MAX_ANCESTOR_BFS_NODES && m != 1 && m != 2
    ensures Exact(IsAncestor, Ladder(n, m))
  {
    LadderSize(n, m);
    LadderClimbs(n, m);
    hide Exact, Ladder, Linked;
    FallingIsExact(Ladder(n, m));
  }

  /**
   With an exact test, the side block is concurrent with the chain blocks above the first that do
   not have it behind them.
   */
  lemma LadderConcurrent(n: nat, m: nat, anc: Ancestry, b: Hash)
    requires n >= 2 && m != 1 && m != 2 && Exact(anc, Ladder(n, m)) && 1 <= b <= n
    ensures Concurrent(Ladder(n, m), anc, b, n + 1) <==> b > 1 && !(2 < m <= b)
  {
    var g := Ladder(n, m);
    assert b in g && n + 1 in g;
    assert ExactAt(anc, g, b) && ExactAt(anc, g, n + 1);
    LadderUp(n, m, n + 1, b);
    LadderSide(n, m, b);
  }

  /** The chain of block `n` has a block right beyond the cut that is not in the past of the merged block `c`. */
  ghost predicate DeepAndBeside(g: Graph, anc: Ancestry, k: nat, n: Hash, c: Hash) {
    && Scored(g, n) && Merged(g, [n, c], n, c) && |WholeChain(g, n)| > 2 * k + 1
    && Concurrent(g, anc, WholeChain(g, n)[2 * k + 1], c) && !Reaches(g, WholeChain(g, n)[2 * k + 1], c)
  }

  /**
   For every K there is a graph in which a chain block beyond the cut is not in the past of a merged
   block, although no decision depends on it.
   */
  lemma DeepBlockConcurrent(k: nat, anc: Ancestry)
    requires Exact(anc, Ladder(2 * k + 3, 0))
    ensures DeepAndBeside(Ladder(2 * k + 3, 0), anc, k, 2 * k + 3, 2 * k + 4)
  {
    var n := 2 * k + 3;
    var g := Ladder(n, 0);
    assert n in g && n + 1 in g;
    hide WholeChain, Ladder, Scored, Exact, Concurrent, Reaches, Merged;
    LadderChain(n, 0, n);
    LadderSide(n, 0, 2);
    LadderConcurrent(n, 0, anc, 2);
    LadderMerged(n, 0);
  }

  lemma LadderMerged(n: nat, m: nat)
    requires n >= 2 && m == 0
    ensures Merged(Ladder(n, m), [n, n + 1], n, n + 1)
  {
    var g := Ladder(n, m);
    assert n + 1 in g;
    hide *;
    LadderUp(n, m, n + 1, n);
    SelfReached(g, n + 1);
    MergedSecond(g, n, n + 1);
  }

  lemma MergedSecond(g: Graph, sp: Hash, x: Hash)
    requires Reaches(g, x, x) && !Reaches(g, x, sp)
    ensures Merged(g, [sp, x], sp, x)
  {
    hide Reaches;
    assert Reaches(g, x, [sp, x][1]);
  }

  /** A parent behind the selected one is blue with the cut chain and red with the whole one. */
  ghost predicate BlueByCut(g: Graph, anc: Ancestry, k: nat, n: Hash, c: Hash) {
    && Scored(g, n) && Collected(g, anc, [n, c], n, c) && Reaches(g, c, n)
    && Classified(g, anc, k, Chain(g, n, 2 * k + 1), [c]) == Classes([c], [])
    && Classified(g, anc, k, WholeChain(g, n), [c]) == Classes([], [c])
  }

  /**
   For every K there is a graph in which a parent is behind the selected one and is blue with the
   chain cut at 2K + 1, but red with the whole chain.
   */
  lemma CutMattersBehind(k: nat, anc: Ancestry)
    requires Exact(anc, Ladder(3 * k + 3, k + 3))
    ensures BlueByCut(Ladder(3 * k + 3, k + 3), anc, k, 3 * k + 3, 3 * k + 4)
  {
    hide Ladder, Scored, Exact, WholeChain, Chain, Concurrent, Reaches, AntiCone, Classified;
    var n, m := 3 * k + 3, k + 3;
    var g := Ladder(n, m);
    LadderIn(n, m);
    LadderPattern(k, anc, n, m, g);
    BehindCounts(g, anc, k, n, n + 1);
    SideCollected(g, anc, n, n + 1);
    LadderUp(n, m, n + 1, n);
    OneClassified(g, anc, k, Chain(g, n, 2 * k + 1), n + 1);
    OneClassified(g, anc, k, WholeChain(g, n), n + 1);
  }

  /** The chain blocks concurrent with `c` are those beyond the cut, but for the first of all. */
  ghost predicate DeepPattern(g: Graph, anc: Ancestry, k: nat, n: Hash, c: Hash) {
    Scored(g, n) && n == 3 * k + 3 && |WholeChain(g, n)| == n &&
    forall i :: 0 <= i < n ==> (Concurrent(g, anc, WholeChain(g, n)[i], c) <==> 2 * k + 1 <= i < n - 1)
  }

  lemma LadderPattern(k: nat, anc: Ancestry, n: nat, m: nat, g: Graph)
    requires n == 3 * k + 3 && m == k + 3 && g == Ladder(n, m) && Exact(anc, g)
    ensures DeepPattern(g, anc, k, n, n + 1)
  {
    hide Ladder, Scored, Exact, WholeChain, Concurrent;
    LadderChain(n, m, n);
    forall i | 0 <= i < n
      ensures Concurrent(g, anc, WholeChain(g, n)[i], n + 1) <==> 2 * k + 1 <= i < n - 1
    {
      LadderConcurrent(n, m, anc, n - i);
    }
  }

  lemma LadderIn(n: nat, m: nat)
    requires n >= 2
    ensures n in Ladder(n, m) && n + 1 in Ladder(n, m)
  {
  }

  lemma SideCollected(g: Graph, anc: Ancestry, n: Hash, c: Hash)
    requires c in g && c != n
    ensures Collected(g, anc, [n, c], n, c)
  {
    assert c in [n, c];
    MetParent(g, anc, [n, c], n, c);
  }

  lemma BehindCounts(g: Graph, anc: Ancestry, k: nat, n: Hash, c: Hash)
    requires DeepPattern(g, anc, k, n, c)
    ensures AntiCone(g, anc, c, Chain(g, n, 2 * k + 1)) == 0 && AntiCone(g, anc, c, WholeChain(g, n)) == k + 1
  {
    hide Scored, WholeChain, Chain, Concurrent, AntiCone;
    ChainIsPrefix(g, n, 2 * k + 1);
    CountParts(g, anc, c, WholeChain(g, n), 2 * k + 1);
  }

  /** All but the last of the blocks from a place on are concurrent, and no others. */
  lemma CountParts(g: Graph, anc: Ancestry, c: Hash, whole: seq<Hash>, j: nat)
    requires j < |whole| && forall i :: 0 <= i < |whole| ==> (Concurrent(g, anc, whole[i], c) <==> j <= i < |whole| - 1)
    ensures AntiCone(g, anc, c, whole[..j]) == 0 && AntiCone(g, anc, c, whole) == |whole| - 1 - j
  {
    hide Concurrent, AntiCone;
    var cut, mid, last := whole[..j], whole[j..|whole| - 1], whole[|whole| - 1..];
    assert whole == cut + mid + last;
    AntiConeExtremes(g, anc, c, cut);
    AntiConeExtremes(g, anc, c, mid);
    AntiConeExtremes(g, anc, c, last);
    AntiConeAppend(g, anc, c, cut, mid);
    AntiConeAppend(g, anc, c, cut + mid, last);
  }

  lemma OneClassified(g: Graph, anc: Ancestry, k: nat, inherited: seq<Hash>, c: Hash)
    ensures Classified(g, anc, k, inherited, [c]) ==
      if AntiCone(g, anc, c, inherited) <= k then Classes([c], []) else Classes([], [c])
  {
    assert [c][..0] == [] && inherited + [] == inherited;
  }

  /** Both for the code's own search and every K, the shipped 18 and 32 among them, up to the node limit. */
  lemma ForTheSearch(k: nat)
    requires 3 * k + 3 < MAX_ANCESTOR_BFS_NODES
    ensures DeepAndBeside(Ladder(2 * k + 3, 0), IsAncestor, k, 2 * k + 3, 2 * k + 4)
    ensures BlueByCut(Ladder(3 * k + 3, k + 3), IsAncestor, k, 3 * k + 3, 3 * k + 4)
  {
    hide Ladder, Exact, DeepAndBeside, BlueByCut, IsAncestor;
    LadderExact(2 * k + 3, 0);
    LadderExact(3 * k + 3, k + 3);
    DeepBlockConcurrent(k, IsAncestor);
    CutMattersBehind(k, IsAncestor);
  }
}
