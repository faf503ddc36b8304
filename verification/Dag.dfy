/**
 The block DAG as the block index holds it: blocks with any number of parents, each
 with its GHOSTDAG data, and reachability along parents.
 */
module Dag {

  /** Block hashes; zero is the null hash. */
  type Hash = nat

  const NULL: Hash := 0

  datatype GhostdagData = GhostdagData(blueScore: nat, selectedParent: Hash, blues: seq<Hash>, reds: seq<Hash>,
    blueWork: nat)

  /** What an entry of the block index holds before its block is taken in. */
  const NO_DATA := GhostdagData(0, NULL, [], [], 0)

  /** An entry of the block index. The main parent is one height below; the other parents may be at any height. */
  datatype Block = Block(pprev: Hash, dagParents: seq<Hash>, height: nat, work: nat, data: GhostdagData) {
    function Parents(): seq<Hash> { (if pprev == NULL then [] else [pprev]) + dagParents }
  }

  type Graph = map<Hash, Block>

  function Score(g: Graph, h: Hash): nat {
    if h in g then g[h].data.blueScore else 0
  }

  predicate IsParent(g: Graph, p: Hash, c: Hash) {
    c in g && p in g && p in g[c].Parents()
  }

  ghost predicate EntryLinked(g: Graph, h: Hash)
    requires h in g
  {
    && (forall p :: p in g[h].Parents() ==> p in g)
    && (g[h].pprev == NULL ==> g[h].height == 0)
    && (g[h].pprev != NULL ==> g[h].pprev in g && g[g[h].pprev].height + 1 == g[h].height)
    && (g[h].data.selectedParent == NULL || g[h].data.selectedParent in g[h].Parents())
  }

  /** All parents are known, and the selected parent, where there is one, is one of them. */
  ghost predicate Linked(g: Graph) {
    NULL !in g && forall h :: h in g ==> EntryLinked(g, h)
  }

  lemma ParentKnown(g: Graph, h: Hash, i: nat)
    requires Linked(g) && h in g && i < |g[h].Parents()|
    ensures IsParent(g, g[h].Parents()[i], h) && g[h].Parents()[i] != NULL
  {
    assert EntryLinked(g, h);
    assert g[h].Parents()[i] in g[h].Parents();
  }

  // ---------- reachability ----------

  /** A way from the first block to the last along parents. */
  ghost predicate Path(g: Graph, s: seq<Hash>) {
    && |s| > 0 && (forall i :: 0 <= i < |s| ==> s[i] in g)
    && (forall i :: 0 <= i < |s| - 1 ==> IsParent(g, s[i + 1], s[i]))
  }

  ghost predicate Joins(g: Graph, s: seq<Hash>, b: Hash, a: Hash) {
    Path(g, s) && s[0] == b && s[|s| - 1] == a
  }

  /** A block is reached from another by following parents, in any number of steps. */
  ghost predicate Reaches(g: Graph, a: Hash, b: Hash) {
    exists s :: Joins(g, s, b, a)
  }

  lemma SelfReached(g: Graph, a: Hash)
    requires a in g
    ensures Reaches(g, a, a)
  {
    assert Joins(g, [a], a, a);
  }

  lemma ReachesKnown(g: Graph, a: Hash, b: Hash)
    requires Reaches(g, a, b)
    ensures a in g && b in g
  {
  }

  lemma ParentReached(g: Graph, p: Hash, b: Hash)
    requires IsParent(g, p, b)
    ensures Reaches(g, p, b)
  {
    assert Joins(g, [b, p], b, p);
  }

  /** Two ways, the second from where the first ends. */
  lemma JoinWays(g: Graph, s: seq<Hash>, t: seq<Hash>, c: Hash, b: Hash, a: Hash)
    requires Joins(g, s, c, b) && Joins(g, t, b, a)
    ensures Joins(g, s + t[1..], c, a)
  {
    var r := s + t[1..];
    forall i | 0 <= i < |r| - 1
      ensures IsParent(g, r[i + 1], r[i])
    {
      assert i >= |s| - 1 ==> r[i] == t[i - (|s| - 1)] && r[i + 1] == t[i - (|s| - 1) + 1];
    }
  }

  lemma ReachesThrough(g: Graph, a: Hash, b: Hash, c: Hash)
    requires Reaches(g, a, b) && Reaches(g, b, c)
    ensures Reaches(g, a, c)
  {
    var s :| Joins(g, s, c, b);
    var t :| Joins(g, t, b, a);
    JoinWays(g, s, t, c, b, a);
  }

  /** Every block on a way is reached from its start and reaches its end. */
  lemma OnTheWay(g: Graph, s: seq<Hash>, b: Hash, a: Hash, i: nat)
    requires Joins(g, s, b, a) && i < |s|
    ensures Reaches(g, s[i], b) && Reaches(g, a, s[i])
  {
    assert Joins(g, s[..i + 1], b, s[i]);
    assert Joins(g, s[i..], s[i], a);
  }

  /** A path to another block starts with a parent. */
  lemma ParentOnPath(g: Graph, a: Hash, b: Hash) returns (p: Hash)
    requires Reaches(g, a, b) && a != b
    ensures IsParent(g, p, b) && Reaches(g, a, p)
  {
    var s :| Joins(g, s, b, a);
    p := s[1];
    assert IsParent(g, s[0 + 1], s[0]);
    OnTheWay(g, s, b, a, 1);
  }

  // ---------- ancestor tests ----------

  /** The ancestor test that the block provider offers: whether the first block is behind the second. */
  type Ancestry = (Graph, Hash, Hash) -> bool

  /** The test never claims too much. */
  ghost predicate Safe(anc: Ancestry, g: Graph) {
    forall a, b :: anc(g, a, b) ==> Reaches(g, a, b)
  }

  ghost predicate ExactAt(anc: Ancestry, g: Graph, b: Hash) {
    forall a :: anc(g, a, b) <==> Reaches(g, a, b)
  }

  /** The test is reachability. */
  ghost predicate Exact(anc: Ancestry, g: Graph) {
    forall b :: b in g ==> ExactAt(anc, g, b)
  }

  /** Two graphs hold the same blocks in the past of a block. */
  ghost predicate Agree(g1: Graph, g2: Graph, b: Hash) {
    b in g1 && forall x :: Reaches(g1, x, b) ==> x in g1 && x in g2 && g2[x] == g1[x]
  }

  lemma AgreeParent(g1: Graph, g2: Graph, p: Hash, x: Hash)
    requires Linked(g1) && Agree(g1, g2, x) && p in g1[x].Parents()
    ensures IsParent(g1, p, x) && Agree(g1, g2, p)
  {
    assert EntryLinked(g1, x);
    ParentReached(g1, p, x);
    forall y | Reaches(g1, y, p)
      ensures y in g1 && y in g2 && g2[y] == g1[y]
    {
      ReachesThrough(g1, y, p, x);
    }
  }

  lemma AgreeHere(g1: Graph, g2: Graph, x: Hash)
    requires Agree(g1, g2, x)
    ensures x in g1 && x in g2 && g1[x] == g2[x]
  {
    SelfReached(g1, x);
  }

  /** Agreement on the past goes both ways. */
  lemma AgreeBack(g1: Graph, g2: Graph, b: Hash)
    requires Agree(g1, g2, b) && Linked(g1)
    ensures Agree(g2, g1, b)
  {
    AgreeHere(g1, g2, b);
    forall x | Reaches(g2, x, b)
      ensures x in g2 && x in g1 && g1[x] == g2[x]
    {
      var s :| Joins(g2, s, b, x);
      AgreeAlong(g1, g2, s, b, |s| - 1);
      AgreeHere(g1, g2, x);
    }
  }

  lemma {:induction false} AgreeAlong(g1: Graph, g2: Graph, s: seq<Hash>, b: Hash, i: nat)
    requires Linked(g1) && Agree(g1, g2, b) && Path(g2, s) && s[0] == b && i < |s|
    ensures Agree(g1, g2, s[i])
  {
    if i > 0 {
      AgreeAlong(g1, g2, s, b, i - 1);
      assert IsParent(g2, s[i - 1 + 1], s[i - 1]);
      AgreeHere(g1, g2, s[i - 1]);
      AgreeParent(g1, g2, s[i], s[i - 1]);
    }
  }

  lemma WayOver(g1: Graph, g2: Graph, s: seq<Hash>, b: Hash, a: Hash)
    requires Linked(g1) && Agree(g1, g2, b) && Joins(g2, s, b, a)
    ensures Joins(g1, s, b, a)
  {
    forall i | 0 <= i < |s|
      ensures s[i] in g1 && g1[s[i]] == g2[s[i]]
    {
      AgreeAlong(g1, g2, s, b, i);
      AgreeHere(g1, g2, s[i]);
    }
  }

  lemma ReachesSame(g1: Graph, g2: Graph, a: Hash, b: Hash)
    requires Linked(g1) && Agree(g1, g2, b)
    ensures Reaches(g1, a, b) <==> Reaches(g2, a, b)
  {
    if Reaches(g1, a, b) {
      var s :| Joins(g1, s, b, a);
      forall i | 0 <= i < |s|
        ensures s[i] in g2 && g1[s[i]] == g2[s[i]]
      {
        OnTheWay(g1, s, b, a, i);
      }
      assert Joins(g2, s, b, a);
    } else if Reaches(g2, a, b) {
      var s :| Joins(g2, s, b, a);
      WayOver(g1, g2, s, b, a);
    }
  }

  lemma AgreeBelow(g1: Graph, g2: Graph, a: Hash, b: Hash)
    requires Agree(g1, g2, b) && Reaches(g1, a, b)
    ensures Agree(g1, g2, a)
  {
    forall x | Reaches(g1, x, a)
      ensures Reaches(g1, x, b)
    {
      ReachesThrough(g1, x, a, b);
    }
  }

  /** The answer of the test depends on nothing but the past of the second block. */
  ghost predicate PastOnly(anc: Ancestry) {
    forall g1, g2, a, b :: Linked(g1) && Linked(g2) && Agree(g1, g2, b) ==> anc(g1, a, b) == anc(g2, a, b)
  }

  // ---------- rising scores ----------

  /** In the past of a block, scores rise from parents to children. */
  ghost predicate Scored(g: Graph, b: Hash) {
    Linked(g) && b in g && forall p, c :: Reaches(g, c, b) && IsParent(g, p, c) ==> Score(g, p) < Score(g, c)
  }

  lemma ScoredBelow(g: Graph, a: Hash, b: Hash)
    requires Scored(g, b) && Reaches(g, a, b)
    ensures Scored(g, a)
  {
    ReachesKnown(g, a, b);
    forall p, c | Reaches(g, c, a) && IsParent(g, p, c)
      ensures Score(g, p) < Score(g, c)
    {
      ReachesThrough(g, c, a, b);
    }
  }

  lemma ParentScore(g: Graph, p: Hash, b: Hash)
    requires Scored(g, b) && IsParent(g, p, b)
    ensures Score(g, p) < Score(g, b) && Reaches(g, p, b) && Scored(g, p)
  {
    SelfReached(g, b);
    ParentReached(g, p, b);
    ScoredBelow(g, p, b);
  }

  lemma {:induction false} PathScore(g: Graph, s: seq<Hash>, b: Hash, a: Hash)
    requires Scored(g, b) && Joins(g, s, b, a)
    ensures a != b ==> Score(g, a) < Score(g, b)
    ensures |s| == 1 || Score(g, a) < Score(g, b)
    decreases |s|
  {
    hide Scored;
    if |s| > 1 {
      assert IsParent(g, s[0 + 1], s[0]);
      ParentScore(g, s[1], b);
      assert Joins(g, s[1..], s[1], a);
      PathScore(g, s[1..], s[1], a);
    }
  }

  lemma ReachesScore(g: Graph, a: Hash, b: Hash)
    requires Scored(g, b) && Reaches(g, a, b)
    ensures a in g && b in g && (a != b ==> Score(g, a) < Score(g, b))
  {
    var s :| Joins(g, s, b, a);
    PathScore(g, s, b, a);
  }

  // ---------- order by score ----------

  /** By blue score, then by hash. */
  predicate Before(g: Graph, a: Hash, b: Hash) {
    Score(g, a) < Score(g, b) || (Score(g, a) == Score(g, b) && a < b)
  }

  /** In strictly ascending order, so without repeats. */
  ghost predicate Ascending(g: Graph, s: seq<Hash>) {
    forall i, j :: 0 <= i < j < |s| ==> Before(g, s[i], s[j])
  }

  ghost predicate NoRepeats(s: seq<Hash>) {
    forall i, j :: 0 <= i < j < |s| ==> s[i] != s[j]
  }

  /** The place of a hash in an ascending list. */
  method Insert(g: Graph, s: seq<Hash>, h: Hash) returns (r: seq<Hash>)
    requires Ascending(g, s) && h !in s
    ensures Ascending(g, r) && |r| == |s| + 1
    ensures forall x :: x in r <==> x == h || x in s
  {
    var i := 0;
    while i < |s| && Before(g, s[i], h)
      invariant 0 <= i <= |s| && forall k :: 0 <= k < i ==> Before(g, s[k], h)
    {
      i := i + 1;
    }
    r := s[..i] + [h] + s[i..];
    assert i < |s| ==> Before(g, h, s[i]);
    assert s == s[..i] + s[i..];
  }

  method Sort(g: Graph, s: seq<Hash>) returns (r: seq<Hash>)
    requires NoRepeats(s)
    ensures Ascending(g, r) && |r| == |s| && forall x :: x in r <==> x in s
  {
    r := [];
    for i := 0 to |s|
      invariant Ascending(g, r) && |r| == i && forall x :: x in r <==> x in s[..i]
    {
      assert s[i] !in s[..i];
      assert s[..i + 1] == s[..i] + [s[i]];
      r := Insert(g, r, s[i]);
    }
    assert s[..|s|] == s;
  }
}
