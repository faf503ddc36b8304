/**
 GHOSTDAG: for a new block, the selected parent, the blue and red blocks of its
 mergeset and its blue score. The ancestor test of the block provider is a parameter.
 */
module Ghostdag {
  import opened Wrappers
  import opened Dag
  import opened Bits
  import opened Mergeset

  // ---------- the selected parent ----------

  /** A higher score, or the same and a smaller hash. */
  predicate Better(g: Graph, a: Hash, b: Hash) {
    Score(g, a) > Score(g, b) || (Score(g, a) == Score(g, b) && a < b)
  }

  method SelectBestParent(g: Graph, candidates: seq<Hash>) returns (best: Hash)
    ensures candidates == [] ==> best == NULL
    ensures candidates != [] ==> best in candidates && forall c :: c in candidates && c != best ==> Better(g, best, c)
  {
    if candidates == [] {
      return NULL;
    }
    best := candidates[0];
    for i := 1 to |candidates|
      invariant best in candidates[..i] && forall c :: c in candidates[..i] && c != best ==> Better(g, best, c)
    {
      assert candidates[..i + 1] == candidates[..i] + [candidates[i]];
      if Better(g, candidates[i], best) {
        best := candidates[i];
      }
    }
    assert candidates[..|candidates|] == candidates;
  }

  // ---------- the chain of selected parents ----------

  /** A block, its selected parent and so on, at most `n` of them. */
  function Chain(g: Graph, h: Hash, n: nat): seq<Hash>
    decreases n
  {
    if h == NULL || h !in g || n == 0 then [] else [h] + Chain(g, g[h].data.selectedParent, n - 1)
  }

  function WholeChain(g: Graph, h: Hash): (c: seq<Hash>)
    requires Scored(g, h)
    ensures |c| > 0 && c[0] == h
    decreases Score(g, h)
  {
    SelectedBelow(g, h);
    var s := g[h].data.selectedParent;
    [h] + if s == NULL then [] else WholeChain(g, s)
  }

  lemma SelectedKnown(g: Graph, h: Hash)
    requires Linked(g) && h in g
    ensures var s := g[h].data.selectedParent; s != NULL ==> IsParent(g, s, h) && Reaches(g, s, h)
  {
    var s := g[h].data.selectedParent;
    assert EntryLinked(g, h);
    if s != NULL {
      ParentReached(g, s, h);
    }
  }

  lemma SelectedBelow(g: Graph, h: Hash)
    requires Scored(g, h)
    ensures var s := g[h].data.selectedParent;
      s != NULL ==> Reaches(g, s, h) && Scored(g, s) && Score(g, s) < Score(g, h)
  {
    SelectedKnown(g, h);
    hide Linked;
    var s := g[h].data.selectedParent;
    if s != NULL {
      ParentScore(g, s, h);
    }
  }

  /** It goes from each block to its selected parent, down to a block without one. */
  lemma {:induction false} ChainLinks(g: Graph, h: Hash, i: nat)
    requires Scored(g, h) && i < |WholeChain(g, h)|
    ensures var c := WholeChain(g, h);
      c[i] in g && g[c[i]].data.selectedParent == if i + 1 < |c| then c[i + 1] else NULL
    decreases Score(g, h)
  {
    SelectedBelow(g, h);
    hide Reaches, Scored;
    if i > 0 {
      ChainLinks(g, g[h].data.selectedParent, i - 1);
    }
  }

  lemma {:induction false} ChainIsPrefix(g: Graph, h: Hash, n: nat)
    requires Scored(g, h)
    ensures Chain(g, h, n) == WholeChain(g, h)[..if n < |WholeChain(g, h)| then n else |WholeChain(g, h)|]
    decreases n
  {
    if n > 0 {
      ChainStep(g, h, n);
      SelectedBelow(g, h);
      hide Reaches, Scored, Chain, WholeChain;
      var s := g[h].data.selectedParent;
      if s != NULL {
        ChainIsPrefix(g, s, n - 1);
      }
      FirstOfMore(h, Chain(g, s, n - 1), if s == NULL then [] else WholeChain(g, s), n);
    }
  }

  lemma ChainCut(g: Graph, h: Hash, n: nat)
    requires Scored(g, h)
    ensures Chain(g, h, n) <= WholeChain(g, h) && (Chain(g, h, n) == WholeChain(g, h) || |Chain(g, h, n)| == n)
  {
    hide Scored, Chain, WholeChain;
    ChainIsPrefix(g, h, n);
  }

  lemma ChainStep(g: Graph, h: Hash, n: nat)
    requires Scored(g, h) && n > 0
    ensures var s := g[h].data.selectedParent;
      && Chain(g, h, n) == [h] + Chain(g, s, n - 1) && (s == NULL ==> Chain(g, s, n - 1) == [])
      && (s != NULL ==> Scored(g, s))
      && WholeChain(g, h) == [h] + if s == NULL then [] else WholeChain(g, s)
  {
    SelectedBelow(g, h);
  }

  lemma FirstOfMore(h: Hash, some: seq<Hash>, all: seq<Hash>, n: nat)
    requires n > 0 && some == all[..if n - 1 < |all| then n - 1 else |all|]
    ensures [h] + some == ([h] + all)[..if n < |[h] + all| then n else |[h] + all|]
  {
  }

  /** Each block of the chain is reached from those above it. */
  lemma {:induction false} ChainReaches(g: Graph, h: Hash, i: nat, j: nat)
    requires Scored(g, h) && i <= j < |WholeChain(g, h)|
    ensures Reaches(g, WholeChain(g, h)[j], WholeChain(g, h)[i])
    decreases Score(g, h)
  {
    SelectedBelow(g, h);
    SelfReached(g, h);
    hide Reaches, Scored;
    if j > 0 {
      var s := g[h].data.selectedParent;
      if i > 0 {
        ChainReaches(g, s, i - 1, j - 1);
      } else {
        ChainReaches(g, s, 0, j - 1);
        ReachesThrough(g, WholeChain(g, s)[j - 1], s, h);
      }
    }
  }

  /** Walks the selected parents, from a block on. */
  method SelectedParentChain(g: Graph, block: Hash, k: nat) returns (chain: seq<Hash>)
    ensures chain == Chain(g, block, 2 * k + 1)
  {
    chain := [];
    var cur := block;
    while cur != NULL && cur in g && |chain| < 2 * k + 1
      invariant |chain| <= 2 * k + 1 && chain + Chain(g, cur, 2 * k + 1 - |chain|) == Chain(g, block, 2 * k + 1)
      decreases 2 * k + 1 - |chain|
    {
      ghost var rest := Chain(g, g[cur].data.selectedParent, 2 * k - |chain|);
      assert chain + ([cur] + rest) == (chain + [cur]) + rest;
      chain := chain + [cur];
      cur := g[cur].data.selectedParent;
    }
    assert Chain(g, cur, 2 * k + 1 - |chain|) == [];
  }

  // ---------- blue and red ----------

  /** The test puts neither of two different blocks behind the other. */
  predicate Concurrent(g: Graph, anc: Ancestry, a: Hash, b: Hash) {
    a != b && !anc(g, a, b) && !anc(g, b, a)
  }

  /** How many blocks of a list are concurrent with a block. */
  function AntiCone(g: Graph, anc: Ancestry, c: Hash, s: seq<Hash>): nat {
    if s == [] then 0
    else AntiCone(g, anc, c, s[..|s| - 1]) + if Concurrent(g, anc, s[|s| - 1], c) then 1 else 0
  }

  /** That is the number of places with such a block. */
  lemma {:induction false} AntiConeCounts(g: Graph, anc: Ancestry, c: Hash, s: seq<Hash>)
    ensures AntiCone(g, anc, c, s) == |Concurrents(g, anc, c, s)|
  {
    hide Concurrent;
    if s != [] {
      var n := |s| - 1;
      AntiConeCounts(g, anc, c, s[..n]);
      var before, now := Concurrents(g, anc, c, s[..n]), Concurrents(g, anc, c, s);
      assert now == if Concurrent(g, anc, s[n], c) then before + {n} else before;
    }
  }

  ghost function Concurrents(g: Graph, anc: Ancestry, c: Hash, s: seq<Hash>): set<int> {
    set i | 0 <= i < |s| && Concurrent(g, anc, s[i], c)
  }

  method AntiConeBlueCount(g: Graph, anc: Ancestry, block: Hash, candidates: seq<Hash>) returns (count: nat)
    ensures count == AntiCone(g, anc, block, candidates)
  {
    count := 0;
    assert candidates[..0] == [];
    for i := 0 to |candidates|
      invariant count == AntiCone(g, anc, block, candidates[..i])
    {
      assert candidates[..i + 1][..i] == candidates[..i];
      var blue := candidates[i];
      if blue == block {
        continue;
      }
      var isAncestor := anc(g, blue, block);
      var isDescendant := anc(g, block, blue);
      if !isAncestor && !isDescendant {
        count := count + 1;
      }
    }
    assert candidates[..|candidates|] == candidates;
  }

  lemma {:induction false} AntiConeAppend(g: Graph, anc: Ancestry, c: Hash, s: seq<Hash>, t: seq<Hash>)
    ensures AntiCone(g, anc, c, s + t) == AntiCone(g, anc, c, s) + AntiCone(g, anc, c, t)
  {
    hide Concurrent;
    if t == [] {
      assert s + t == s;
    } else {
      var n := |t| - 1;
      AntiConeAppend(g, anc, c, s, t[..n]);
      assert (s + t)[..|s + t| - 1] == s + t[..n];
    }
  }

  lemma {:induction false} AntiConeExtremes(g: Graph, anc: Ancestry, c: Hash, s: seq<Hash>)
    ensures (forall i :: 0 <= i < |s| ==> Concurrent(g, anc, s[i], c)) ==> AntiCone(g, anc, c, s) == |s|
    ensures (forall i :: 0 <= i < |s| ==> !Concurrent(g, anc, s[i], c)) <==> AntiCone(g, anc, c, s) == 0
  {
    hide Concurrent;
    if s != [] {
      var n := |s| - 1;
      AntiConeExtremes(g, anc, c, s[..n]);
      assert forall i :: 0 <= i < n ==> s[..n][i] == s[i];
    }
  }

  datatype Classes = Classes(blues: seq<Hash>, reds: seq<Hash>)

  /** One block after the other: blue if at most `k` of the blues so far are concurrent with it. */
  function Classified(g: Graph, anc: Ancestry, k: nat, inherited: seq<Hash>, mergeset: seq<Hash>): (r: Classes)
    ensures |r.blues| + |r.reds| == |mergeset|
  {
    if mergeset == [] then Classes([], [])
    else
      var n := |mergeset| - 1;
      var r := Classified(g, anc, k, inherited, mergeset[..n]);
      if AntiCone(g, anc, mergeset[n], inherited + r.blues) <= k then Classes(r.blues + [mergeset[n]], r.reds)
      else Classes(r.blues, r.reds + [mergeset[n]])
  }

  method ClassifyMergeset(
    g: Graph, anc: Ancestry, k: nat, inherited: seq<Hash>, mergeset: seq<Hash>)
    returns (blues: seq<Hash>, reds: seq<Hash>)
    ensures Classes(blues, reds) == Classified(g, anc, k, inherited, mergeset)
    ensures NoRepeats(mergeset) ==> Coloured(g, anc, k, inherited, mergeset, blues, reds)
  {
    hide AntiCone, Coloured;
    blues, reds := [], [];
    var current := inherited;
    for i := 0 to |mergeset|
      invariant Classes(blues, reds) == Classified(g, anc, k, inherited, mergeset[..i]) && current == inherited + blues
    {
      assert mergeset[..i + 1][..i] == mergeset[..i];
      var anticone := AntiConeBlueCount(g, anc, mergeset[i], current);
      if anticone <= k {
        blues := blues + [mergeset[i]];
        current := current + [mergeset[i]];
      } else {
        reds := reds + [mergeset[i]];
      }
    }
    assert mergeset[..|mergeset|] == mergeset;
    if NoRepeats(mergeset) {
      ColouredIff(g, anc, k, inherited, mergeset, blues, reds);
    }
  }

  /** Every block of the mergeset gets one colour. */
  lemma {:induction false} ClassesSplit(
    g: Graph, anc: Ancestry, k: nat, inherited: seq<Hash>, mergeset: seq<Hash>, x: Hash)
    requires NoRepeats(mergeset)
    ensures var r := Classified(g, anc, k, inherited, mergeset);
      (x in mergeset <==> x in r.blues || x in r.reds) && !(x in r.blues && x in r.reds)
  {
    hide AntiCone;
    if mergeset != [] {
      var n := |mergeset| - 1;
      ClassesSplit(g, anc, k, inherited, mergeset[..n], x);
      assert mergeset == mergeset[..n] + [mergeset[n]];
    }
  }

  /** The blocks of a list that are among others, in the order of the list. */
  function Only(s: seq<Hash>, among: seq<Hash>): seq<Hash> {
    if s == [] then []
    else Only(s[..|s| - 1], among) + if s[|s| - 1] in among then [s[|s| - 1]] else []
  }

  /** Among the chain and the blues that come before it in the mergeset, at most `k` are concurrent with a block. */
  predicate Fits(g: Graph, anc: Ancestry, k: nat, inherited: seq<Hash>, mergeset: seq<Hash>, blues: seq<Hash>, i: nat)
    requires i < |mergeset|
  {
    AntiCone(g, anc, mergeset[i], inherited + Only(mergeset[..i], blues)) <= k
  }

  /** Blues and reds are in the order of the mergeset, and exactly the blocks that fit are blue. */
  ghost predicate Coloured(
    g: Graph, anc: Ancestry, k: nat, inherited: seq<Hash>, mergeset: seq<Hash>, blues: seq<Hash>, reds: seq<Hash>)
  {
    && blues == Only(mergeset, blues) && reds == Only(mergeset, reds)
    && forall i :: 0 <= i < |mergeset| ==> ColourAt(g, anc, k, inherited, mergeset, blues, reds, i)
  }

  predicate ColourAt(
    g: Graph, anc: Ancestry, k: nat, inherited: seq<Hash>, mergeset: seq<Hash>, blues: seq<Hash>, reds: seq<Hash>,
    i: nat)
    requires i < |mergeset|
  {
    && (mergeset[i] in blues <==> Fits(g, anc, k, inherited, mergeset, blues, i))
    && (mergeset[i] in reds <==> mergeset[i] !in blues)
  }

  lemma {:induction false} OnlyIn(s: seq<Hash>, among: seq<Hash>, x: Hash)
    ensures x in Only(s, among) <==> x in s && x in among
  {
    if s != [] {
      OnlyIn(s[..|s| - 1], among, x);
      assert s == s[..|s| - 1] + [s[|s| - 1]];
    }
  }

  /** A block that is not in the list makes no difference. */
  lemma {:induction false} OnlyElse(s: seq<Hash>, among: seq<Hash>, x: Hash)
    requires x !in s
    ensures Only(s, among + [x]) == Only(s, among)
  {
    if s != [] {
      OnlyElse(s[..|s| - 1], among, x);
      assert s[|s| - 1] != x;
    }
  }

  lemma OnlyNext(s: seq<Hash>, i: nat, among: seq<Hash>)
    requires i < |s|
    ensures Only(s[..i + 1], among) == Only(s[..i], among) + if s[i] in among then [s[i]] else []
  {
    assert s[..i + 1][..i] == s[..i];
  }

  /** The rule block by block has the colours the definition asks for. */
  lemma {:induction false} ClassifiedColours(
    g: Graph, anc: Ancestry, k: nat, inherited: seq<Hash>, mergeset: seq<Hash>, n: nat)
    requires NoRepeats(mergeset) && n <= |mergeset|
    ensures var r := Classified(g, anc, k, inherited, mergeset[..n]);
      Coloured(g, anc, k, inherited, mergeset[..n], r.blues, r.reds)
  {
    hide AntiCone;
    if n > 0 {
      var before, now := mergeset[..n - 1], mergeset[..n];
      ClassifiedColours(g, anc, k, inherited, mergeset, n - 1);
      assert now[..n - 1] == before && now == before + [mergeset[n - 1]];
      var r := Classified(g, anc, k, inherited, before);
      OneMoreColoured(g, anc, k, inherited, before, mergeset[n - 1], r.blues, r.reds);
    } else {
      assert mergeset[..0] == [];
    }
  }

  lemma OneMoreColoured(
    g: Graph, anc: Ancestry, k: nat, inherited: seq<Hash>, s: seq<Hash>, x: Hash, blues: seq<Hash>, reds: seq<Hash>)
    requires x !in s && Coloured(g, anc, k, inherited, s, blues, reds)
    ensures if AntiCone(g, anc, x, inherited + blues) <= k
      then Coloured(g, anc, k, inherited, s + [x], blues + [x], reds)
      else Coloured(g, anc, k, inherited, s + [x], blues, reds + [x])
  {
    hide AntiCone, Only, Fits, ColourAt;
    OnlyMore(s, blues, x);
    OnlyMore(s, reds, x);
    LastFits(g, anc, k, inherited, s, x, blues, reds);
    forall i | 0 <= i < |s|
      ensures ColourAt(g, anc, k, inherited, s + [x], blues + [x], reds, i)
      ensures ColourAt(g, anc, k, inherited, s + [x], blues, reds + [x], i)
    {
      SameFit(g, anc, k, inherited, s, x, blues, reds, i);
    }
  }

  /** A list of its own blocks, and one more block. */
  lemma OnlyMore(s: seq<Hash>, some: seq<Hash>, x: Hash)
    requires x !in s && some == Only(s, some)
    ensures x !in some && Only(s + [x], some) == some && Only(s + [x], some + [x]) == some + [x]
  {
    OnlyIn(s, some, x);
    OnlyElse(s, some, x);
    assert (s + [x])[..|s|] == s;
  }

  lemma SameFit(
    g: Graph, anc: Ancestry, k: nat, inherited: seq<Hash>, s: seq<Hash>, x: Hash, blues: seq<Hash>, reds: seq<Hash>,
    i: nat)
    requires x !in s && i < |s| && ColourAt(g, anc, k, inherited, s, blues, reds, i)
    ensures ColourAt(g, anc, k, inherited, s + [x], blues + [x], reds, i)
    ensures ColourAt(g, anc, k, inherited, s + [x], blues, reds + [x], i)
  {
    hide AntiCone, Only;
    assert (s + [x])[..i] == s[..i];
    OnlyElse(s[..i], blues, x);
    assert s[i] != x;
  }

  lemma LastFits(
    g: Graph, anc: Ancestry, k: nat, inherited: seq<Hash>, s: seq<Hash>, x: Hash, blues: seq<Hash>, reds: seq<Hash>)
    requires x !in s && x !in blues && x !in reds && blues == Only(s, blues)
    ensures if AntiCone(g, anc, x, inherited + blues) <= k
      then ColourAt(g, anc, k, inherited, s + [x], blues + [x], reds, |s|)
      else ColourAt(g, anc, k, inherited, s + [x], blues, reds + [x], |s|)
  {
    hide AntiCone, Only;
    assert (s + [x])[..|s|] == s;
    OnlyElse(s, blues, x);
  }

  /** And no other colours have them. */
  lemma {:induction false} ColoursOnly(
    g: Graph, anc: Ancestry, k: nat, inherited: seq<Hash>, mergeset: seq<Hash>, n: nat, blues: seq<Hash>,
    reds: seq<Hash>)
    requires NoRepeats(mergeset) && n <= |mergeset| && Coloured(g, anc, k, inherited, mergeset, blues, reds)
    ensures Classified(g, anc, k, inherited, mergeset[..n])
      == Classes(Only(mergeset[..n], blues), Only(mergeset[..n], reds))
  {
    hide AntiCone, Only;
    if n > 0 {
      ColoursOnly(g, anc, k, inherited, mergeset, n - 1, blues, reds);
      OnlyNext(mergeset, n - 1, blues);
      OnlyNext(mergeset, n - 1, reds);
      assert mergeset[..n][..n - 1] == mergeset[..n - 1];
      assert ColourAt(g, anc, k, inherited, mergeset, blues, reds, n - 1);
    } else {
      NoneOnly(mergeset, blues);
      NoneOnly(mergeset, reds);
    }
  }

  lemma NoneOnly(s: seq<Hash>, among: seq<Hash>)
    ensures s[..0] == [] && Only(s[..0], among) == []
  {
  }

  /**
   What the rule block by block comes to, without it: the colours of a mergeset are the only ones
   in which exactly the blocks are blue that find at most `k` concurrent ones among the chain and
   the blues before them.
   */
  lemma ColouredIff(
    g: Graph, anc: Ancestry, k: nat, inherited: seq<Hash>, mergeset: seq<Hash>, blues: seq<Hash>, reds: seq<Hash>)
    requires NoRepeats(mergeset)
    ensures Classes(blues, reds) == Classified(g, anc, k, inherited, mergeset)
       <==> Coloured(g, anc, k, inherited, mergeset, blues, reds)
  {
    var n := |mergeset|;
    assert mergeset[..n] == mergeset;
    ClassifiedColours(g, anc, k, inherited, mergeset, n);
    if Coloured(g, anc, k, inherited, mergeset, blues, reds) {
      ColoursOnly(g, anc, k, inherited, mergeset, n, blues, reds);
    }
  }

  /** Seen from the blues: each finds at most `k` concurrent ones among the chain and the blues before it. */
  lemma BlueFits(
    g: Graph, anc: Ancestry, k: nat, inherited: seq<Hash>, mergeset: seq<Hash>, blues: seq<Hash>, reds: seq<Hash>,
    j: nat)
    requires NoRepeats(mergeset) && Coloured(g, anc, k, inherited, mergeset, blues, reds) && j < |blues|
    ensures AntiCone(g, anc, blues[j], inherited + blues[..j]) <= k
  {
    hide AntiCone, Only;
    assert mergeset[..|mergeset|] == mergeset;
    var i := PlaceOf(mergeset, blues, j, |mergeset|);
    assert ColourAt(g, anc, k, inherited, mergeset, blues, reds, i);
    assert Fits(g, anc, k, inherited, mergeset, blues, i);
  }

  lemma {:induction false} PlaceOf(s: seq<Hash>, some: seq<Hash>, j: nat, n: nat) returns (i: nat)
    requires n <= |s| && j < |Only(s[..n], some)|
    ensures i < n && s[i] == Only(s[..n], some)[j] && s[i] in some && Only(s[..i], some) == Only(s[..n], some)[..j]
  {
    hide Only;
    NoneOnly(s, some);
    OnlyNext(s, n - 1, some);
    i := n - 1;
    if j < |Only(s[..n - 1], some)| {
      i := PlaceOf(s, some, j, n - 1);
    }
  }

  // ---------- the cut of the chain ----------

  /** The decision on a block is the same with the cut chain and with the whole one, given the other blues. */
  predicate SameDecision(g: Graph, anc: Ancestry, k: nat, c: Hash, cut: seq<Hash>, whole: seq<Hash>, blues: seq<Hash>) {
    AntiCone(g, anc, c, cut + blues) <= k <==> AntiCone(g, anc, c, whole + blues) <= k
  }

  /** Blues that may come from a pool: each block of the pool at most once. */
  ghost predicate From(blues: seq<Hash>, pool: seq<Hash>) {
    NoRepeats(blues) && forall x :: x in blues ==> x in pool
  }

  /** The blocks of a list beyond its beginning. */
  function Beyond(cut: seq<Hash>, whole: seq<Hash>): seq<Hash>
    requires cut <= whole
  {
    whole[|cut|..]
  }

  /** The cut chain alone decides, or nothing beyond the cut counts, or all there is to count is not too much. */
  ghost predicate CutFits(g: Graph, anc: Ancestry, k: nat, c: Hash, cut: seq<Hash>, whole: seq<Hash>, pool: seq<Hash>)
    requires cut <= whole
  {
    || AntiCone(g, anc, c, cut) > k
    || AntiCone(g, anc, c, Beyond(cut, whole)) == 0
    || AntiCone(g, anc, c, whole) + AntiCone(g, anc, c, pool) <= k
  }

  lemma CutSplit(g: Graph, anc: Ancestry, c: Hash, cut: seq<Hash>, whole: seq<Hash>)
    requires cut <= whole
    ensures AntiCone(g, anc, c, whole) == AntiCone(g, anc, c, cut) + AntiCone(g, anc, c, Beyond(cut, whole))
  {
    hide AntiCone;
    assert whole == cut + Beyond(cut, whole);
    AntiConeAppend(g, anc, c, cut, Beyond(cut, whole));
  }

  /** Any number of concurrent blocks, up to how many there are, can be had from a list without repeats. */
  lemma {:induction false} SomeConcurrent(
    g: Graph, anc: Ancestry, c: Hash, pool: seq<Hash>, n: nat) returns (s: seq<Hash>)
    requires NoRepeats(pool) && n <= AntiCone(g, anc, c, pool)
    ensures From(s, pool) && AntiCone(g, anc, c, s) == n
    decreases |pool|
  {
    if n == 0 {
      s := [];
    } else {
      var m := |pool| - 1;
      var x := pool[m];
      assert pool == pool[..m] + [x];
      if Concurrent(g, anc, x, c) {
        var t := SomeConcurrent(g, anc, c, pool[..m], n - 1);
        s := t + [x];
        assert s[..|s| - 1] == t && x !in pool[..m];
      } else {
        s := SomeConcurrent(g, anc, c, pool[..m], n);
      }
    }
  }

  /** No choice from a list has more concurrent blocks than the list. */
  lemma {:induction false} NoMoreConcurrent(g: Graph, anc: Ancestry, c: Hash, blues: seq<Hash>, pool: seq<Hash>)
    requires From(blues, pool)
    ensures AntiCone(g, anc, c, blues) <= AntiCone(g, anc, c, pool)
    decreases |blues|
  {
    if blues != [] {
      var n := |blues| - 1;
      var x := blues[n];
      assert x in blues && x !in blues[..n];
      var i :| 0 <= i < |pool| && pool[i] == x;
      var rest := pool[..i] + pool[i + 1..];
      forall y | y in blues[..n]
        ensures y in rest
      {
        assert y in blues;
        StillThere(pool, i, y);
      }
      NoMoreConcurrent(g, anc, c, blues[..n], rest);
      WithoutOne(g, anc, c, pool, i);
    }
  }

  lemma StillThere(s: seq<Hash>, i: nat, y: Hash)
    requires i < |s| && y in s && y != s[i]
    ensures y in s[..i] + s[i + 1..]
  {
    assert s == s[..i] + [s[i]] + s[i + 1..];
  }

  lemma WithoutOne(g: Graph, anc: Ancestry, c: Hash, s: seq<Hash>, i: nat)
    requires i < |s|
    ensures AntiCone(g, anc, c, s) ==
      AntiCone(g, anc, c, s[..i] + s[i + 1..]) + if Concurrent(g, anc, s[i], c) then 1 else 0
  {
    assert s == (s[..i] + [s[i]]) + s[i + 1..];
    AntiConeAppend(g, anc, c, s[..i] + [s[i]], s[i + 1..]);
    AntiConeAppend(g, anc, c, s[..i], s[i + 1..]);
    AntiConeAppend(g, anc, c, s[..i], [s[i]]);
    assert [s[i]][..0] == [];
  }

  /**
   Cutting the chain changes no decision on a block, whichever blocks of a pool are the other
   blues, exactly when the cut chain alone makes it red, or no chain block beyond the cut is
   concurrent with it, or the whole chain and the pool together do not make it red.
   */
  lemma CutDecisionIff(g: Graph, anc: Ancestry, k: nat, c: Hash, cut: seq<Hash>, whole: seq<Hash>, pool: seq<Hash>)
    requires cut <= whole && NoRepeats(pool)
    ensures (forall blues :: From(blues, pool) ==> SameDecision(g, anc, k, c, cut, whole, blues))
       <==> CutFits(g, anc, k, c, cut, whole, pool)
  {
    hide AntiCone, Concurrent;
    CutSplit(g, anc, c, cut, whole);
    if CutFits(g, anc, k, c, cut, whole, pool) {
      forall blues | From(blues, pool)
        ensures SameDecision(g, anc, k, c, cut, whole, blues)
      {
        FitsDecides(g, anc, k, c, cut, whole, pool, blues);
      }
    } else {
      var some, most := k - AntiCone(g, anc, c, cut), AntiCone(g, anc, c, pool);
      var blues := SomeConcurrent(g, anc, c, pool, if some < most then some else most);
      AntiConeAppend(g, anc, c, cut, blues);
      AntiConeAppend(g, anc, c, whole, blues);
      assert !SameDecision(g, anc, k, c, cut, whole, blues);
    }
  }

  lemma FitsDecides(
    g: Graph, anc: Ancestry, k: nat, c: Hash, cut: seq<Hash>, whole: seq<Hash>, pool: seq<Hash>, blues: seq<Hash>)
    requires cut <= whole && CutFits(g, anc, k, c, cut, whole, pool) && From(blues, pool)
    ensures SameDecision(g, anc, k, c, cut, whole, blues)
  {
    hide AntiCone, Concurrent;
    CutSplit(g, anc, c, cut, whole);
    AntiConeAppend(g, anc, c, cut, blues);
    AntiConeAppend(g, anc, c, whole, blues);
    NoMoreConcurrent(g, anc, c, blues, pool);
  }

  /** The blues of a list without repeats are a choice from it. */
  lemma {:induction false} BluesFrom(g: Graph, anc: Ancestry, k: nat, inherited: seq<Hash>, mergeset: seq<Hash>)
    requires NoRepeats(mergeset)
    ensures From(Classified(g, anc, k, inherited, mergeset).blues, mergeset)
  {
    hide AntiCone;
    if mergeset != [] {
      var n := |mergeset| - 1;
      BluesFrom(g, anc, k, inherited, mergeset[..n]);
      assert mergeset == mergeset[..n] + [mergeset[n]] && mergeset[n] !in mergeset[..n];
    }
  }

  /** If every block of a mergeset fits the cut, with those before it as the pool, the cut changes no colour. */
  lemma {:induction false} SameColours(
    g: Graph, anc: Ancestry, k: nat, cut: seq<Hash>, whole: seq<Hash>, mergeset: seq<Hash>)
    requires cut <= whole && NoRepeats(mergeset)
    requires forall i :: 0 <= i < |mergeset| ==> CutFits(g, anc, k, mergeset[i], cut, whole, mergeset[..i])
    ensures Classified(g, anc, k, cut, mergeset) == Classified(g, anc, k, whole, mergeset)
  {
    hide AntiCone, CutFits;
    if mergeset != [] {
      var n := |mergeset| - 1;
      var most := mergeset[..n];
      assert forall i :: 0 <= i < n ==> most[..i] == mergeset[..i];
      SameColours(g, anc, k, cut, whole, most);
      BluesFrom(g, anc, k, whole, most);
      FitsDecides(g, anc, k, mergeset[n], cut, whole, most, Classified(g, anc, k, whole, most).blues);
    }
  }

  /** All blocks of the chain from a place on are in the past of a block exactly when the first of them is. */
  lemma DeepInPastIff(g: Graph, h: Hash, c: Hash, n: nat)
    requires Scored(g, h) && n < |WholeChain(g, h)|
    ensures (forall j :: n <= j < |WholeChain(g, h)| ==> Reaches(g, WholeChain(g, h)[j], c)) <==>
      Reaches(g, WholeChain(g, h)[n], c)
  {
    hide Reaches, Scored, Linked;
    var whole := WholeChain(g, h);
    if Reaches(g, whole[n], c) {
      forall j | n <= j < |whole|
        ensures Reaches(g, whole[j], c)
      {
        ChainReaches(g, h, n, j);
        ReachesThrough(g, whole[j], whole[n], c);
      }
    }
  }

  /** A block beyond the past of the chain's head that is concurrent with some chain block is so with all above it. */
  lemma ConcurrentAbove(g: Graph, anc: Ancestry, h: Hash, c: Hash, i: nat, j: nat)
    requires Scored(g, h) && Exact(anc, g) && c in g && !Reaches(g, c, h) && i <= j < |WholeChain(g, h)|
    requires Concurrent(g, anc, WholeChain(g, h)[j], c)
    ensures Concurrent(g, anc, WholeChain(g, h)[i], c)
  {
    var upper, lower := WholeChain(g, h)[i], WholeChain(g, h)[j];
    ChainReaches(g, h, 0, i);
    ChainReaches(g, h, i, j);
    ReachesKnown(g, lower, upper);
    hide Reaches, WholeChain, Scored;
    assert ExactAt(anc, g, upper) && ExactAt(anc, g, lower) && ExactAt(anc, g, c);
    if Reaches(g, c, upper) {
      ReachesThrough(g, c, upper, h);
    }
    if Reaches(g, upper, c) {
      ReachesThrough(g, lower, upper, c);
    }
  }

  /** A block fits the cut at 2k + 1 of the selected chain of `h`, with the other blues from a pool. */
  ghost predicate FitsChain(g: Graph, anc: Ancestry, k: nat, h: Hash, c: Hash, pool: seq<Hash>)
    requires Scored(g, h)
  {
    var cut, whole := Chain(g, h, 2 * k + 1), WholeChain(g, h);
    cut <= whole && CutFits(g, anc, k, c, cut, whole, pool)
  }

  /** With an exact test, every block beyond the past of the chain's head fits the cut, whatever the pool. */
  lemma BeyondFits(g: Graph, anc: Ancestry, k: nat, h: Hash, c: Hash, pool: seq<Hash>)
    requires Scored(g, h) && Exact(anc, g) && c in g && !Reaches(g, c, h)
    ensures FitsChain(g, anc, k, h, c, pool)
  {
    hide Reaches, Scored, Exact, Concurrent, AntiCone, WholeChain, Chain;
    var whole, cut := WholeChain(g, h), Chain(g, h, 2 * k + 1);
    ChainCut(g, h, 2 * k + 1);
    var rest := Beyond(cut, whole);
    AntiConeExtremes(g, anc, c, rest);
    if i :| 0 <= i < |rest| && Concurrent(g, anc, rest[i], c) {
      assert rest[i] == whole[|cut| + i];
      AllAboveConcurrent(g, anc, h, c, |cut|, |cut| + i);
      assert cut == whole[..|cut|];
    }
  }

  lemma AllAboveConcurrent(g: Graph, anc: Ancestry, h: Hash, c: Hash, n: nat, j: nat)
    requires Scored(g, h) && Exact(anc, g) && c in g && !Reaches(g, c, h)
    requires n <= j < |WholeChain(g, h)| && Concurrent(g, anc, WholeChain(g, h)[j], c)
    ensures AntiCone(g, anc, c, WholeChain(g, h)[..n]) == n
  {
    hide Reaches, Scored, Exact, Concurrent, AntiCone, WholeChain;
    var cut := WholeChain(g, h)[..n];
    forall i | 0 <= i < n
      ensures Concurrent(g, anc, cut[i], c)
    {
      ConcurrentAbove(g, anc, h, c, i, j);
    }
    AntiConeExtremes(g, anc, c, cut);
  }

  /**
   So for the selected chain of a block: the cut at 2k + 1 leaves all decisions on `c` alone exactly
   when `c` fits the cut.
   */
  lemma ChainCutIff(g: Graph, anc: Ancestry, k: nat, h: Hash, c: Hash, pool: seq<Hash>)
    requires Scored(g, h) && NoRepeats(pool)
    ensures (forall blues :: From(blues, pool) ==>
               SameDecision(g, anc, k, c, Chain(g, h, 2 * k + 1), WholeChain(g, h), blues))
       <==> FitsChain(g, anc, k, h, c, pool)
  {
    hide WholeChain, Chain, Scored, AntiCone, Concurrent, SameDecision, CutFits, From, NoRepeats;
    ChainCut(g, h, 2 * k + 1);
    CutDecisionIff(g, anc, k, c, Chain(g, h, 2 * k + 1), WholeChain(g, h), pool);
  }

  lemma MergedFits(g: Graph, anc: Ancestry, k: nat, parents: seq<Hash>, sp: Hash, c: Hash, pool: seq<Hash>)
    requires Scored(g, sp) && Known(g, parents) && Exact(anc, g) && Independent(g, parents, sp)
    requires Collected(g, anc, parents, sp, c)
    ensures FitsChain(g, anc, k, sp, c, pool)
  {
    assert ExactAt(anc, g, sp);
    hide FitsChain, Reaches, Scored, Exact;
    MetInPast(g, anc, parents, sp, c);
    BeyondFits(g, anc, k, sp, c, pool);
  }

  /**
   The colours computed are those the whole chain gives, if every merged block fits the cut; with
   an exact test and no other parent behind the selected one, every merged block does.
   */
  lemma WholeChainColours(g: Graph, anc: Ancestry, k: nat, parents: seq<Hash>, d: GhostdagData, mergeset: seq<Hash>)
    requires Scored(g, d.selectedParent) && Known(g, parents) && Colours(g, anc, k, parents, d, mergeset)
    requires (forall i :: 0 <= i < |mergeset| ==> FitsChain(g, anc, k, d.selectedParent, mergeset[i], mergeset[..i]))
          || (Exact(anc, g) && Independent(g, parents, d.selectedParent))
    ensures Classes(d.blues, d.reds) == Classified(g, anc, k, WholeChain(g, d.selectedParent), mergeset)
  {
    var sp := d.selectedParent;
    assert forall i :: 0 <= i < |mergeset| ==> mergeset[i] in mergeset && Collected(g, anc, parents, sp, mergeset[i]);
    assert Classes(d.blues, d.reds) == Classified(g, anc, k, Chain(g, sp, 2 * k + 1), mergeset);
    assert NoRepeats(mergeset);
    hide *;
    if Exact(anc, g) && Independent(g, parents, sp) {
      forall i | 0 <= i < |mergeset|
        ensures FitsChain(g, anc, k, sp, mergeset[i], mergeset[..i])
      {
        MergedFits(g, anc, k, parents, sp, mergeset[i], mergeset[..i]);
      }
    }
    ChainColours(g, anc, k, sp, mergeset);
  }

  lemma ChainColours(g: Graph, anc: Ancestry, k: nat, h: Hash, mergeset: seq<Hash>)
    requires Scored(g, h) && NoRepeats(mergeset)
    requires forall i :: 0 <= i < |mergeset| ==> FitsChain(g, anc, k, h, mergeset[i], mergeset[..i])
    ensures Classified(g, anc, k, Chain(g, h, 2 * k + 1), mergeset) == Classified(g, anc, k, WholeChain(g, h), mergeset)
  {
    hide Scored, WholeChain, Chain, CutFits, Classified, NoRepeats;
    ChainCut(g, h, 2 * k + 1);
    SameColours(g, anc, k, Chain(g, h, 2 * k + 1), WholeChain(g, h), mergeset);
  }

  // ---------- the data of a new block ----------

  const MOD64 := 0x1_0000_0000_0000_0000

  function WorkOf(g: Graph, s: seq<Hash>): nat {
    if s == [] then 0
    else WorkOf(g, s[..|s| - 1]) + if s[|s| - 1] in g then g[s[|s| - 1]].work else 0
  }

  /** The work of a list is the sum of the work of its blocks; a block that is not there adds nothing. */
  lemma {:induction false} WorkIsSum(g: Graph, s: seq<Hash>, x: Hash, t: seq<Hash>)
    ensures WorkOf(g, s + [x] + t) == WorkOf(g, s + t) + if x in g then g[x].work else 0
    ensures WorkOf(g, []) == 0
  {
    if t == [] {
      assert s + [x] + t == s + [x] && s + t == s && (s + [x])[..|s|] == s;
    } else {
      var n := |t| - 1;
      WorkIsSum(g, s, x, t[..n]);
      assert (s + [x] + t)[..|s| + 1 + n] == s + [x] + t[..n] && (s + t)[..|s| + n] == s + t[..n];
    }
  }

  /** The best of the parents. */
  ghost predicate IsBest(g: Graph, parents: seq<Hash>, sp: Hash) {
    sp in parents && sp in g && forall c :: c in parents && c != sp ==> Better(g, sp, c)
  }

  /** What the data of a block with the given parents must be. */
  ghost predicate DataFor(g: Graph, anc: Ancestry, k: nat, parents: seq<Hash>, d: GhostdagData) {
    if parents == [] then d == NO_DATA
    else
      && IsBest(g, parents, d.selectedParent)
      && !TooMany(g, anc, parents, d.selectedParent)
      && (exists mergeset :: Colours(g, anc, k, parents, d, mergeset))
      && d.blueScore == Score(g, d.selectedParent) + |d.blues| + 1
      && d.blueWork == (g[d.selectedParent].data.blueWork + WorkOf(g, d.blues)) % MOD64
  }

  /** The blues and reds are those of the mergeset, taken in ascending order, with the chain cut at 2k + 1 blocks. */
  ghost predicate Colours(g: Graph, anc: Ancestry, k: nat, parents: seq<Hash>, d: GhostdagData, mergeset: seq<Hash>) {
    && Ascending(g, mergeset)
    && (forall x :: x in mergeset <==> Collected(g, anc, parents, d.selectedParent, x))
    && Classes(d.blues, d.reds) == Classified(g, anc, k, Chain(g, d.selectedParent, 2 * k + 1), mergeset)
  }

  /**
   The colours in a block's data without the rule that made them: a blue finds at most `k`
   concurrent ones among the selected chain and the blues before it, a red more than `k`, and both
   are in the order of the mergeset.
   */
  lemma ColoursMean(g: Graph, anc: Ancestry, k: nat, parents: seq<Hash>, d: GhostdagData, mergeset: seq<Hash>)
    requires Colours(g, anc, k, parents, d, mergeset)
    ensures d.blues == Only(mergeset, d.blues) && d.reds == Only(mergeset, d.reds)
    ensures forall j :: 0 <= j < |d.blues| ==>
      AntiCone(g, anc, d.blues[j], Chain(g, d.selectedParent, 2 * k + 1) + d.blues[..j]) <= k
    ensures forall i :: 0 <= i < |mergeset| && mergeset[i] !in d.blues ==>
      mergeset[i] in d.reds
      && AntiCone(g, anc, mergeset[i], Chain(g, d.selectedParent, 2 * k + 1) + Only(mergeset[..i], d.blues)) > k
    ensures forall x :: x in d.reds ==> x !in d.blues
  {
    AscendingOnce(g, mergeset);
    hide Ascending, Collected, Chain, AntiCone, Only, Classified, Coloured;
    var chain := Chain(g, d.selectedParent, 2 * k + 1);
    ColouredIff(g, anc, k, chain, mergeset, d.blues, d.reds);
    assert Coloured(g, anc, k, chain, mergeset, d.blues, d.reds);
    ColouredFacts(g, anc, k, chain, mergeset, d.blues, d.reds);
    forall j | 0 <= j < |d.blues|
      ensures AntiCone(g, anc, d.blues[j], chain + d.blues[..j]) <= k
    {
      BlueFits(g, anc, k, chain, mergeset, d.blues, d.reds, j);
    }
  }

  lemma AscendingOnce(g: Graph, s: seq<Hash>)
    requires Ascending(g, s)
    ensures NoRepeats(s)
  {
  }

  lemma ColouredFacts(
    g: Graph, anc: Ancestry, k: nat, inherited: seq<Hash>, mergeset: seq<Hash>, blues: seq<Hash>, reds: seq<Hash>)
    requires Coloured(g, anc, k, inherited, mergeset, blues, reds)
    ensures blues == Only(mergeset, blues) && reds == Only(mergeset, reds)
    ensures forall i :: 0 <= i < |mergeset| && mergeset[i] !in blues ==>
      mergeset[i] in reds && AntiCone(g, anc, mergeset[i], inherited + Only(mergeset[..i], blues)) > k
    ensures forall x :: x in reds ==> x !in blues
  {
    hide AntiCone, Only;
    forall i | 0 <= i < |mergeset|
      ensures mergeset[i] !in blues ==>
        mergeset[i] in reds && AntiCone(g, anc, mergeset[i], inherited + Only(mergeset[..i], blues)) > k
      ensures mergeset[i] in reds ==> mergeset[i] !in blues
    {
      assert ColourAt(g, anc, k, inherited, mergeset, blues, reds, i);
    }
    forall x | x in reds
      ensures x in mergeset
    {
      OnlyIn(mergeset, reds, x);
    }
  }

  /** The score of a block is above the scores of all its parents. */
  lemma ScoreRises(g: Graph, anc: Ancestry, k: nat, parents: seq<Hash>, d: GhostdagData)
    requires Known(g, parents) && DataFor(g, anc, k, parents, d)
    ensures forall i :: 0 <= i < |parents| ==> Score(g, parents[i]) < d.blueScore
    ensures d.selectedParent == NULL || d.selectedParent in parents
  {
    hide TooMany, Colours;
    forall i | 0 <= i < |parents|
      ensures Score(g, parents[i]) < d.blueScore
    {
      assert parents[i] in parents;
    }
  }

  /** From the best parent there would be too many blocks to merge. */
  ghost predicate Blocked(g: Graph, anc: Ancestry, parents: seq<Hash>) {
    exists sp :: IsBest(g, parents, sp) && TooMany(g, anc, parents, sp)
  }

  lemma BestUnique(g: Graph, parents: seq<Hash>, a: Hash, b: Hash)
    requires IsBest(g, parents, a) && IsBest(g, parents, b)
    ensures a == b
  {
  }

  lemma BestIs(g: Graph, parents: seq<Hash>, sp: Hash)
    requires Known(g, parents) && sp in parents && forall c :: c in parents && c != sp ==> Better(g, sp, c)
    ensures IsBest(g, parents, sp)
  {
  }

  lemma BlockedByBest(g: Graph, anc: Ancestry, parents: seq<Hash>, sp: Hash)
    requires IsBest(g, parents, sp)
    ensures Blocked(g, anc, parents) <==> TooMany(g, anc, parents, sp)
  {
    hide IsBest, TooMany;
    if Blocked(g, anc, parents) {
      var best :| IsBest(g, parents, best) && TooMany(g, anc, parents, best);
      BestUnique(g, parents, sp, best);
    }
  }

  method ComputeGhostdag(g: Graph, anc: Ancestry, k: nat, parents: seq<Hash>) returns (r: Option<GhostdagData>)
    requires Linked(g) && Known(g, parents)
    ensures r.Some? ==> DataFor(g, anc, k, parents, r.value)
    ensures r.None? <==> Blocked(g, anc, parents)
  {
    if parents == [] {
      return Some(NO_DATA);
    }
    var sp := SelectBestParent(g, parents);
    BestIs(g, parents, sp);
    hide Linked, Collected, TooMany, Ascending, IsBest, Blocked, Better, DataFor;
    BlockedByBest(g, anc, parents, sp);
    var ok, mergeset := ComputeMergeset(g, anc, parents, sp);
    if !ok {
      return None;
    }
    var d := ColourMergeset(g, anc, k, parents, sp, mergeset);
    r := Some(d);
  }

  /** The data of a block whose selected parent and mergeset are known. */
  method ColourMergeset(g: Graph, anc: Ancestry, k: nat, parents: seq<Hash>, sp: Hash, mergeset: seq<Hash>)
    returns (d: GhostdagData)
    requires IsBest(g, parents, sp) && !TooMany(g, anc, parents, sp)
    requires Ascending(g, mergeset) && forall x :: x in mergeset <==> Collected(g, anc, parents, sp, x)
    ensures DataFor(g, anc, k, parents, d)
  {
    assert sp in g && parents != [];
    hide Classified, WorkOf, Collected, Chain, TooMany, Ascending, IsBest;
    var inherited := SelectedParentChain(g, sp, k);
    var blues, reds := ClassifyMergeset(g, anc, k, inherited, mergeset);
    var work := SumWork(g, g[sp].data.blueWork, blues);
    d := GhostdagData(g[sp].data.blueScore + |blues| + 1, sp, blues, reds, work);
    assert Colours(g, anc, k, parents, d, mergeset);
  }

  lemma WrapAdd(x: nat, y: nat, m: nat)
    requires m > 0
    ensures (x % m + y) % m == (x + y) % m
  {
    var q, r := x / m, x % m;
    DivModSplit(x, m);
    DivModSplit(r + y, m);
    var q2, r2 := (r + y) / m, (r + y) % m;
    assert (q + q2) * m == q * m + q2 * m;
    DivModUnique(x + y, m, q + q2, r2);
  }

  /** Adds up the work of the blues in 64 bits. */
  method SumWork(g: Graph, start: nat, s: seq<Hash>) returns (work: nat)
    ensures work == (start + WorkOf(g, s)) % MOD64
  {
    work := start % MOD64;
    assert s[..0] == [];
    for i := 0 to |s|
      invariant work == (start + WorkOf(g, s[..i])) % MOD64
    {
      assert s[..i + 1][..i] == s[..i];
      var more := if s[i] in g then g[s[i]].work else 0;
      WrapAdd(start + WorkOf(g, s[..i]), more, MOD64);
      work := (work + more) % MOD64;
    }
    assert s[..|s|] == s;
  }
}
