/**
 The search that decides whether one block of the DAG is an ancestor of another.
 It never looks below the height of the block it searches for.
 */
module AncestorSearch {
  import opened Dag

  const MAX_ANCESTOR_BFS_NODES := 500000

  // ---------- what the search decides ----------

  /** Between its ends the way stays above a height. */
  ghost predicate Above(g: Graph, s: seq<Hash>, h: nat)
    requires Path(g, s)
  {
    forall i :: 0 < i < |s| - 1 ==> g[s[i]].height > h
  }

  ghost predicate ReachableAbove(g: Graph, a: Hash, b: Hash)
    requires a in g
  {
    exists s :: Joins(g, s, b, a) && Above(g, s, g[a].height)
  }

  /** What the search decides. */
  ghost predicate Found(g: Graph, a: Hash, b: Hash)
    requires a in g && b in g
  {
    a == b || (g[a].height <= g[b].height && ReachableAbove(g, a, b))
  }

  // ---------- one step of a way ----------

  lemma Extend(g: Graph, s: seq<Hash>, b: Hash, x: Hash, p: Hash, h: nat)
    requires Joins(g, s, b, x) && Above(g, s, h) && IsParent(g, p, x) && (|s| == 1 || g[x].height > h)
    ensures Joins(g, s + [p], b, p) && Above(g, s + [p], h)
  {
    var t := s + [p];
    forall i | 0 <= i < |t| - 1
      ensures IsParent(g, t[i + 1], t[i])
    {
      assert i < |s| - 1 ==> IsParent(g, s[i + 1], s[i]);
    }
    forall i | 0 < i < |t| - 1
      ensures g[t[i]].height > h
    {
      assert i < |s| - 1 ==> g[s[i]].height > h;
    }
  }

  // ---------- the state of the search ----------

  /** A block that may be expanded: the start, or one above the height reached by a way above it. */
  ghost predicate Expandable(g: Graph, a: Hash, b: Hash, x: Hash)
    requires a in g
  {
    x in g && (x == b || (g[x].height > g[a].height && exists s :: Joins(g, s, b, x) && Above(g, s, g[a].height)))
  }

  ghost predicate Searching(g: Graph, a: Hash, b: Hash, queue: seq<Hash>, visited: set<Hash>)
    requires a in g && b in g
  {
    && |queue| > 0 && queue[0] == b && a !in visited && visited <= g.Keys
    && (forall i :: 0 <= i < |queue| ==> queue[i] in visited && Expandable(g, a, b, queue[i]))
    && (forall i, j :: 0 <= i < j < |queue| ==> queue[i] != queue[j])
    && (forall x :: x in visited && x in g && g[x].height > g[a].height ==> x in queue)
  }

  /** All parents of the blocks expanded so far have been seen, and none was the one sought. */
  ghost predicate Expanded(g: Graph, a: Hash, queue: seq<Hash>, front: nat, visited: set<Hash>) {
    front <= |queue| && forall i :: 0 <= i < front ==> Seen(g, a, queue[i], visited)
  }

  ghost predicate Seen(g: Graph, a: Hash, x: Hash, visited: set<Hash>) {
    forall p :: IsParent(g, p, x) ==> p in visited - {a}
  }

  /** A parent of an expandable block is reached above the height. */
  lemma StepUp(g: Graph, a: Hash, b: Hash, x: Hash, p: Hash)
    requires a in g && b in g && Expandable(g, a, b, x) && IsParent(g, p, x)
    ensures exists s :: Joins(g, s, b, p) && Above(g, s, g[a].height)
  {
    if x == b {
      assert Joins(g, [b], b, b) && Above(g, [b], g[a].height);
      Extend(g, [b], b, x, p, g[a].height);
    } else {
      var s :| Joins(g, s, b, x) && Above(g, s, g[a].height);
      Extend(g, s, b, x, p, g[a].height);
    }
  }

  lemma Enqueue(g: Graph, a: Hash, b: Hash, queue: seq<Hash>, visited: set<Hash>, x: Hash, p: Hash)
    requires a in g && b in g && Searching(g, a, b, queue, visited) && x in queue && IsParent(g, p, x) && p != a
    requires p !in visited
    ensures Searching(g, a, b, if g[p].height > g[a].height then queue + [p] else queue, visited + {p})
  {
    assert Expandable(g, a, b, x);
    StepUp(g, a, b, x, p);
    hide Joins, Above, IsParent;
    assert p !in queue;
  }

  /** When all is expanded, no way above the height is left. */
  lemma NoWay(g: Graph, a: Hash, b: Hash, queue: seq<Hash>, visited: set<Hash>, s: seq<Hash>)
    requires a in g && b in g && Searching(g, a, b, queue, visited) && Expanded(g, a, queue, |queue|, visited)
    ensures !(Joins(g, s, b, a) && Above(g, s, g[a].height))
  {
    if Joins(g, s, b, a) && Above(g, s, g[a].height) {
      OnQueue(g, a, b, queue, visited, s, |s| - 1);
    }
  }

  lemma {:induction false} OnQueue(
    g: Graph, a: Hash, b: Hash, queue: seq<Hash>, visited: set<Hash>, s: seq<Hash>, i: nat)
    requires a in g && b in g && Searching(g, a, b, queue, visited) && Expanded(g, a, queue, |queue|, visited)
    requires Joins(g, s, b, a) && Above(g, s, g[a].height) && i < |s|
    ensures s[i] in visited && (i < |s| - 1 ==> s[i] in queue)
  {
    if i == 0 {
      assert queue[0] in visited;
    } else {
      OnQueue(g, a, b, queue, visited, s, i - 1);
      var k :| 0 <= k < |queue| && queue[k] == s[i - 1];
      assert Seen(g, a, queue[k], visited);
      assert IsParent(g, s[i - 1 + 1], s[i - 1]);
    }
  }

  // ---------- the search ----------

  /** Follows main parents down to a height. */
  function Down(g: Graph, b: Hash, h: nat): Hash
    decreases if b in g then g[b].height else 0
  {
    if b !in g || g[b].height <= h then b
    else if g[b].pprev in g && g[g[b].pprev].height < g[b].height then Down(g, g[b].pprev, h)
    else NULL
  }

  /** The block so many main parents back. */
  function MainBack(g: Graph, b: Hash, n: nat): Hash
    decreases n
  {
    if n == 0 then b else if b in g then MainBack(g, g[b].pprev, n - 1) else NULL
  }

  /** The main ancestor at a height is as many main parents back as the heights differ. */
  lemma {:induction false} DownIs(g: Graph, b: Hash, h: nat)
    requires Linked(g) && b in g && h <= g[b].height
    ensures Down(g, b, h) == MainBack(g, b, g[b].height - h)
    ensures Down(g, b, h) in g && g[Down(g, b, h)].height == h
    decreases g[b].height
  {
    assert EntryLinked(g, b);
    if h < g[b].height {
      DownIs(g, g[b].pprev, h);
    }
  }

  datatype Frontier = Frontier(hit: bool, queue: seq<Hash>, visited: set<Hash>)

  /** Looks at one parent of a block being expanded. */
  function See(g: Graph, a: Hash, p: Hash, f: Frontier): Frontier
    requires a in g
  {
    if p in f.visited then f
    else Frontier(false, if p in g && g[p].height > g[a].height then f.queue + [p] else f.queue, f.visited + {p})
  }

  /** Looks at parents in turn, until the block sought is among them. */
  function SeeAll(g: Graph, a: Hash, ps: seq<Hash>, f: Frontier): Frontier
    requires a in g
    decreases |ps|
  {
    if ps == [] then f
    else if ps[0] == a then f.(hit := true)
    else SeeAll(g, a, ps[1..], See(g, a, ps[0], f))
  }

  /** Expands the queue from `front` on. No more blocks are expanded than may be visited, so `fuel` never runs out. */
  function Expand(g: Graph, a: Hash, f: Frontier, front: nat, fuel: nat): bool
    requires a in g
    decreases fuel
  {
    if front >= |f.queue| || |f.visited| > MAX_ANCESTOR_BFS_NODES || fuel == 0 then false
    else if f.queue[front] !in g then false
    else
      var next := SeeAll(g, a, g[f.queue[front]].Parents(), f);
      next.hit || Expand(g, a, next, front + 1, fuel - 1)
  }

  /** The answer of the search, the cut-off at the node limit included. */
  function IsAncestor(g: Graph, a: Hash, b: Hash): bool {
    a in g && b in g &&
    (a == b || (g[a].height <= g[b].height &&
      (Down(g, b, g[a].height) == a || Expand(g, a, Frontier(false, [b], {b}), 0, MAX_ANCESTOR_BFS_NODES + 1))))
  }

  lemma {:induction false} DownWay(g: Graph, a: Hash, b: Hash, x: Hash, s: seq<Hash>)
    requires Linked(g) && a in g && Joins(g, s, b, x) && Above(g, s, g[a].height)
    requires |s| == 1 || g[x].height >= g[a].height
    ensures Down(g, x, g[a].height) == a ==> ReachableAbove(g, a, b)
    decreases g[x].height
  {
    if g[x].height > g[a].height {
      assert EntryLinked(g, x);
      var p := g[x].pprev;
      if p != NULL {
        assert IsParent(g, p, x);
        Extend(g, s, b, x, p, g[a].height);
        DownWay(g, a, b, p, s + [p]);
      }
    }
  }

  lemma SeeOk(g: Graph, a: Hash, b: Hash, x: Hash, p: Hash, f: Frontier)
    requires a in g && b in g && Searching(g, a, b, f.queue, f.visited) && !f.hit && x in f.queue && IsParent(g, p, x)
    requires p != a
    ensures var n := See(g, a, p, f);
      !n.hit && Searching(g, a, b, n.queue, n.visited) && n.visited == f.visited + {p} && f.queue <= n.queue
  {
    if p in f.visited {
      assert f.visited + {p} == f.visited;
    } else {
      Enqueue(g, a, b, f.queue, f.visited, x, p);
    }
  }

  /** Expanding a block sees all its parents, or finds the block sought among them. */
  lemma {:induction false} SeeAllOk(g: Graph, a: Hash, b: Hash, x: Hash, ps: seq<Hash>, f: Frontier)
    requires a in g && b in g && Searching(g, a, b, f.queue, f.visited) && !f.hit && x in f.queue
    requires forall p :: p in ps ==> IsParent(g, p, x)
    ensures var n := SeeAll(g, a, ps, f);
      && (n.hit <==> a in ps)
      && (!n.hit ==> Searching(g, a, b, n.queue, n.visited) && f.queue <= n.queue && f.visited <= n.visited
                     && forall p :: p in ps ==> p in n.visited)
    decreases |ps|
  {
    hide Searching, IsParent;
    if ps != [] && ps[0] != a {
      assert ps[0] in ps;
      SeeOk(g, a, b, x, ps[0], f);
      SeeAllOk(g, a, b, x, ps[1..], See(g, a, ps[0], f));
    }
  }

  /** The expansion answers whether there is a way above the height, or is cut off in a larger graph. */
  lemma {:induction false} ExpandDecides(g: Graph, a: Hash, b: Hash, f: Frontier, front: nat, fuel: nat)
    requires Linked(g) && a in g && b in g && a != b && !f.hit && Searching(g, a, b, f.queue, f.visited)
    requires front <= |f.queue| && Expanded(g, a, f.queue, front, f.visited)
    requires front + fuel == MAX_ANCESTOR_BFS_NODES + 1
    ensures Expand(g, a, f, front, fuel) ==> ReachableAbove(g, a, b)
    ensures !Expand(g, a, f, front, fuel) ==> !ReachableAbove(g, a, b) || |g| > MAX_ANCESTOR_BFS_NODES
    decreases fuel
  {
    hide Searching, ReachableAbove, Expanded, Expandable, Linked;
    QueueFits(g, a, b, f.queue, f.visited);
    if front == |f.queue| {
      Exhausted(g, a, b, f.queue, f.visited);
    } else if |f.visited| <= MAX_ANCESTOR_BFS_NODES {
      var x := f.queue[front];
      InIndex(g, a, b, f.queue, f.visited, front);
      var ps := g[x].Parents();
      ParentsKnown(g, x);
      SeeAllOk(g, a, b, x, ps, f);
      var next := SeeAll(g, a, ps, f);
      if next.hit {
        HitAbove(g, a, b, x);
      } else {
        ExpandedMore(g, a, f.queue, next.queue, front, f.visited, next.visited);
        ExpandDecides(g, a, b, next, front + 1, fuel - 1);
      }
    }
  }

  lemma ParentsKnown(g: Graph, c: Hash)
    requires Linked(g) && c in g
    ensures forall p :: p in g[c].Parents() ==> IsParent(g, p, c)
  {
    assert EntryLinked(g, c);
  }

  lemma ExpandedMore(
    g: Graph, a: Hash, queue: seq<Hash>, queue': seq<Hash>, front: nat, visited: set<Hash>, visited': set<Hash>)
    requires Expanded(g, a, queue, front, visited) && front < |queue| && queue <= queue' && visited <= visited'
    requires queue[front] in g && a !in g[queue[front]].Parents()
    requires forall p :: p in g[queue[front]].Parents() ==> p in visited'
    ensures Expanded(g, a, queue', front + 1, visited')
  {
    forall i | 0 <= i < front + 1
      ensures Seen(g, a, queue'[i], visited')
    {
      assert queue'[i] == queue[i];
      if i < front {
        assert Seen(g, a, queue[i], visited);
      }
    }
  }

  lemma InIndex(g: Graph, a: Hash, b: Hash, queue: seq<Hash>, visited: set<Hash>, i: nat)
    requires a in g && b in g && Searching(g, a, b, queue, visited) && i < |queue|
    ensures queue[i] in g && queue[i] in visited && Expandable(g, a, b, queue[i])
  {
  }

  lemma HitAbove(g: Graph, a: Hash, b: Hash, x: Hash)
    requires a in g && b in g && Expandable(g, a, b, x) && IsParent(g, a, x)
    ensures ReachableAbove(g, a, b)
  {
    StepUp(g, a, b, x, a);
  }

  /** The answer is what the search is to decide; only in a graph beyond the node limit may it be a wrong no. */
  lemma AnswerIsFound(g: Graph, a: Hash, b: Hash)
    requires Linked(g) && a in g && b in g
    ensures IsAncestor(g, a, b) ==> Found(g, a, b)
    ensures !IsAncestor(g, a, b) ==> !Found(g, a, b) || |g| > MAX_ANCESTOR_BFS_NODES
  {
    if a != b && g[a].height <= g[b].height {
      var f := Frontier(false, [b], {b});
      assert Joins(g, [b], b, b) && Above(g, [b], g[a].height);
      DownWay(g, a, b, b, [b]);
      assert Searching(g, a, b, f.queue, f.visited);
      Started(g, a, f.queue, f.visited);
      ExpandDecides(g, a, b, f, 0, MAX_ANCESTOR_BFS_NODES + 1);
    }
  }

  /** Expands one block of the queue. */
  method ExpandOne(g: Graph, a: Hash, x: Hash, f: Frontier) returns (next: Frontier)
    requires a in g && x in g && !f.hit
    ensures next == SeeAll(g, a, g[x].Parents(), f)
  {
    next := f;
    var dag := g[x].dagParents;
    ghost var all := g[x].Parents();
    if g[x].pprev != NULL {
      if g[x].pprev == a {
        return next.(hit := true);
      }
      next := See(g, a, g[x].pprev, next);
      assert all[1..] == dag;
    } else {
      assert all == dag;
    }
    assert dag[0..] == dag;
    for i := 0 to |dag|
      invariant SeeAll(g, a, all, f) == SeeAll(g, a, dag[i..], next) && !next.hit
    {
      assert dag[i..][1..] == dag[i + 1..];
      if dag[i] == a {
        return next.(hit := true);
      }
      next := See(g, a, dag[i], next);
    }
  }

  method IsBlockAncestor(g: Graph, a: Hash, b: Hash) returns (r: bool)
    requires Linked(g) && a in g && b in g
    ensures r == IsAncestor(g, a, b)
  {
    if a == b {
      return true;
    }
    if g[a].height > g[b].height {
      return false;
    }
    hide Expand;
    var walk := b;
    while walk != NULL && g[walk].height > g[a].height
      invariant walk != NULL ==> walk in g
      invariant Down(g, walk, g[a].height) == Down(g, b, g[a].height)
      decreases if walk in g then g[walk].height + 1 else 0
    {
      assert EntryLinked(g, walk);
      walk := g[walk].pprev;
    }
    if walk == a {
      return true;
    }
    r := SearchFrom(g, a, b, MAX_ANCESTOR_BFS_NODES + 1);
  }

  /** One turn of the search. */
  method NextFrontier(g: Graph, a: Hash, b: Hash, f: Frontier, front: nat, ghost fuel: nat) returns (next: Frontier)
    requires Linked(g) && a in g && b in g && !f.hit && Searching(g, a, b, f.queue, f.visited) && front < |f.queue|
    requires |f.visited| <= MAX_ANCESTOR_BFS_NODES && front + fuel == MAX_ANCESTOR_BFS_NODES + 1
    ensures front < |g| && fuel > 0
    ensures Expand(g, a, f, front, fuel) == (next.hit || Expand(g, a, next, front + 1, fuel - 1))
    ensures !next.hit ==> Searching(g, a, b, next.queue, next.visited) && front < |next.queue|
  {
    hide Searching, SeeAll, Linked, Expand;
    QueueFits(g, a, b, f.queue, f.visited);
    InIndex(g, a, b, f.queue, f.visited, front);
    ParentsKnown(g, f.queue[front]);
    SeeAllOk(g, a, b, f.queue[front], g[f.queue[front]].Parents(), f);
    ExpandStep(g, a, f, front, fuel);
    next := ExpandOne(g, a, f.queue[front], f);
  }

  method SearchFrom(g: Graph, a: Hash, b: Hash, ghost limit: nat) returns (r: bool)
    requires Linked(g) && a in g && b in g && a != b && limit == MAX_ANCESTOR_BFS_NODES + 1
    ensures r == Expand(g, a, Frontier(false, [b], {b}), 0, limit)
  {
    hide Searching, Linked, Expand;
    var f := Frontier(false, [b], {b});
    var front := 0;
    ghost var fuel := limit;
    SearchStarts(g, a, b);
    while front < |f.queue|
      invariant !f.hit && Searching(g, a, b, f.queue, f.visited) && front <= |f.queue| && front + fuel == limit
      invariant Expand(g, a, Frontier(false, [b], {b}), 0, limit) == Expand(g, a, f, front, fuel)
      decreases |g| - front
    {
      if |f.visited| > MAX_ANCESTOR_BFS_NODES {
        ExpandStep(g, a, f, front, fuel);
        return false;
      }
      f := NextFrontier(g, a, b, f, front, fuel);
      if f.hit {
        return true;
      }
      front, fuel := front + 1, fuel - 1;
    }
    ExpandStep(g, a, f, front, fuel);
    r := false;
  }

  lemma ExpandStep(g: Graph, a: Hash, f: Frontier, front: nat, fuel: nat)
    requires a in g
    ensures front >= |f.queue| || |f.visited| > MAX_ANCESTOR_BFS_NODES ==> !Expand(g, a, f, front, fuel)
    ensures front < |f.queue| && |f.visited| <= MAX_ANCESTOR_BFS_NODES && fuel > 0 && f.queue[front] in g ==>
      var next := SeeAll(g, a, g[f.queue[front]].Parents(), f);
      Expand(g, a, f, front, fuel) == (next.hit || Expand(g, a, next, front + 1, fuel - 1))
  {
  }

  lemma SearchStarts(g: Graph, a: Hash, b: Hash)
    requires a in g && b in g && a != b
    ensures Searching(g, a, b, [b], {b})
  {
  }

  lemma Started(g: Graph, a: Hash, queue: seq<Hash>, visited: set<Hash>)
    ensures Expanded(g, a, queue, 0, visited)
  {
  }

  lemma Exhausted(g: Graph, a: Hash, b: Hash, queue: seq<Hash>, visited: set<Hash>)
    requires a in g && b in g && Searching(g, a, b, queue, visited) && Expanded(g, a, queue, |queue|, visited)
    ensures !ReachableAbove(g, a, b)
  {
    forall s
      ensures !(Joins(g, s, b, a) && Above(g, s, g[a].height))
    {
      NoWay(g, a, b, queue, visited, s);
    }
  }

  /** The queue lists known blocks once each, so it is no longer than the index. */
  lemma QueueFits(g: Graph, a: Hash, b: Hash, queue: seq<Hash>, visited: set<Hash>)
    requires a in g && b in g && Searching(g, a, b, queue, visited)
    ensures |queue| <= |visited| <= |g|
  {
    ListedOnce(queue, visited);
    assert g.Keys == visited + (g.Keys - visited);
  }

  lemma {:induction false} ListedOnce(s: seq<Hash>, all: set<Hash>)
    requires (forall i :: 0 <= i < |s| ==> s[i] in all) && forall i, j :: 0 <= i < j < |s| ==> s[i] != s[j]
    ensures |s| <= |all|
  {
    if s != [] {
      var n := |s| - 1;
      ListedOnce(s[..n], all - {s[n]});
    }
  }

  // ---------- when the answer is reachability ----------

  /** The search decides reachability between all blocks. */
  ghost predicate FindsAll(g: Graph) {
    forall a, b :: a in g && b in g ==> (Found(g, a, b) <==> Reaches(g, a, b))
  }

  /** No parent is higher than its child. */
  ghost predicate NoneRises(g: Graph) {
    forall c, p :: IsParent(g, p, c) ==> g[p].height <= g[c].height
  }

  /** A parent link between blocks of the same height never has to be the second on a way. */
  ghost predicate FlatLinksBypassed(g: Graph) {
    forall q, p, c :: IsParent(g, q, p) && IsParent(g, p, c) && g[q].height == g[p].height && q != p && q != c
      ==> ReachableAbove(g, q, c)
  }

  lemma {:induction false} PathFalls(g: Graph, s: seq<Hash>, i: nat, j: nat)
    requires NoneRises(g) && Path(g, s) && i <= j < |s|
    ensures g[s[j]].height <= g[s[i]].height
    decreases j - i
  {
    if i < j {
      assert IsParent(g, s[i + 1], s[i]);
      PathFalls(g, s, i + 1, j);
    }
  }

  /** A way whose last step starts higher than it ends stays above its end. */
  lemma LastDrops(g: Graph, s: seq<Hash>, a: Hash)
    requires NoneRises(g) && Path(g, s) && a in g && |s| > 1 && g[s[|s| - 2]].height > g[a].height
    ensures Above(g, s, g[a].height)
  {
    forall i | 0 < i < |s| - 1
      ensures g[s[i]].height > g[a].height
    {
      PathFalls(g, s, i, |s| - 2);
    }
  }

  /** Replaces the end of a way, from a block that is higher than the target, by one that stays above. */
  lemma Splice(g: Graph, s: seq<Hash>, t: seq<Hash>, b: Hash, c: Hash, a: Hash)
    requires NoneRises(g) && a in g && Joins(g, s, b, c) && Joins(g, t, c, a) && Above(g, t, g[a].height) && c != a
    requires g[c].height > g[a].height
    ensures ReachableAbove(g, a, b)
  {
    var r := s + t[1..];
    forall i | 0 <= i < |r| - 1
      ensures IsParent(g, r[i + 1], r[i])
    {
      assert i >= |s| - 1 ==> r[i] == t[i - (|s| - 1)] && r[i + 1] == t[i - (|s| - 1) + 1];
    }
    forall i | 0 < i < |r| - 1
      ensures g[r[i]].height > g[a].height
    {
      if i < |s| {
        PathFalls(g, s, i, |s| - 1);
      } else {
        assert r[i] == t[i - (|s| - 1)];
      }
    }
    assert Joins(g, r, b, a) && Above(g, r, g[a].height);
  }

  /** A way above a block of the same height as its start is one step. */
  lemma OneStep(g: Graph, t: seq<Hash>, c: Hash, a: Hash)
    requires NoneRises(g) && a in g && c != a && Joins(g, t, c, a) && Above(g, t, g[a].height)
    requires g[c].height <= g[a].height
    ensures IsParent(g, a, c)
  {
    assert IsParent(g, t[1], t[0]);
  }

  /** Any way can be made to stay above its end. */
  lemma {:induction false} Straighten(g: Graph, s: seq<Hash>, b: Hash, a: Hash)
    requires NoneRises(g) && FlatLinksBypassed(g) && a in g && a != b && Joins(g, s, b, a)
    ensures ReachableAbove(g, a, b)
    decreases |s|
  {
    var n := |s| - 1;
    var p := s[n - 1];
    assert IsParent(g, a, p);
    if g[p].height > g[a].height {
      LastDrops(g, s, a);
    } else if n == 1 {
      assert Above(g, s, g[a].height);
    } else {
      var c := s[n - 2];
      assert IsParent(g, p, c);
      if p == a {
        assert Joins(g, s[..n], b, a);
        Straighten(g, s[..n], b, a);
      } else if c == a {
        assert Joins(g, s[..n - 1], b, a);
        Straighten(g, s[..n - 1], b, a);
      } else {
        var t :| Joins(g, t, c, a) && Above(g, t, g[a].height);
        if g[c].height > g[a].height {
          assert Joins(g, s[..n - 1], b, c);
          Splice(g, s[..n - 1], t, b, c, a);
        } else {
          OneStep(g, t, c, a);
          Shortened(g, s, b, a);
          Straighten(g, s[..n - 1] + [a], b, a);
        }
      }
    }
  }

  lemma Shortened(g: Graph, s: seq<Hash>, b: Hash, a: Hash)
    requires Joins(g, s, b, a) && |s| > 2 && IsParent(g, a, s[|s| - 3])
    ensures Joins(g, s[..|s| - 2] + [a], b, a)
  {
    var r := s[..|s| - 2] + [a];
    forall i | 0 <= i < |r| - 1
      ensures IsParent(g, r[i + 1], r[i])
    {
      assert i < |r| - 2 ==> r[i + 1] == s[i + 1];
    }
  }

  /**
   The search decides reachability between all blocks exactly when no parent is higher than
   its child and parent links between blocks of the same height can be bypassed.
   */
  lemma ExactIff(g: Graph)
    ensures FindsAll(g) <==> NoneRises(g) && FlatLinksBypassed(g)
  {
    if NoneRises(g) && FlatLinksBypassed(g) {
      forall a, b | a in g && b in g
        ensures Found(g, a, b) <==> Reaches(g, a, b)
      {
        Decides(g, a, b);
      }
    }
    if FindsAll(g) {
      forall c, p | IsParent(g, p, c)
        ensures g[p].height <= g[c].height
      {
        assert Joins(g, [c, p], c, p);
        assert Found(g, p, c);
      }
      forall q, p, c | IsParent(g, q, p) && IsParent(g, p, c) && g[q].height == g[p].height && q != p && q != c
        ensures ReachableAbove(g, q, c)
      {
        assert Joins(g, [c, p, q], c, q);
        assert Found(g, q, c);
      }
    }
  }

  lemma Decides(g: Graph, a: Hash, b: Hash)
    requires NoneRises(g) && FlatLinksBypassed(g) && a in g && b in g
    ensures Found(g, a, b) <==> Reaches(g, a, b)
  {
    if a == b {
      assert Joins(g, [b], b, a);
    } else if s :| Joins(g, s, b, a) {
      PathFalls(g, s, 0, |s| - 1);
      Straighten(g, s, b, a);
    }
  }

  // ---------- the answer as an ancestor test ----------

  lemma FoundReaches(g: Graph, a: Hash, b: Hash)
    requires a in g && b in g && Found(g, a, b)
    ensures Reaches(g, a, b)
  {
    if a == b {
      SelfReached(g, a);
    }
  }

  /** A yes is always right. */
  lemma AnswerSafe(g: Graph)
    requires Linked(g)
    ensures Safe(IsAncestor, g)
  {
    hide IsAncestor;
    forall a, b | IsAncestor(g, a, b)
      ensures Reaches(g, a, b)
    {
      AnswerKnown(g, a, b);
      AnswerIsFound(g, a, b);
      FoundReaches(g, a, b);
    }
  }

  lemma AnswerKnown(g: Graph, a: Hash, b: Hash)
    requires IsAncestor(g, a, b)
    ensures a in g && b in g
  {
  }

  /**
   In a graph within the node limit the answer is reachability for all blocks exactly when no
   parent is higher than its child and parent links between equal heights can be bypassed.
   */
  lemma AnswerExactIff(g: Graph)
    requires Linked(g) && |g| <= MAX_ANCESTOR_BFS_NODES
    ensures Exact(IsAncestor, g) <==> NoneRises(g) && FlatLinksBypassed(g)
  {
    hide IsAncestor, Found;
    ExactIff(g);
    AnswerSafe(g);
    forall a, b | a in g && b in g
      ensures IsAncestor(g, a, b) <==> Found(g, a, b)
    {
      AnswerIsFound(g, a, b);
    }
    if FindsAll(g) {
      forall b, a | b in g
        ensures IsAncestor(g, a, b) <==> Reaches(g, a, b)
      {
        if Reaches(g, a, b) {
          ReachesKnown(g, a, b);
        }
      }
      assert forall b :: b in g ==> ExactAt(IsAncestor, g, b);
    }
    if Exact(IsAncestor, g) {
      forall a, b | a in g && b in g
        ensures Found(g, a, b) <==> Reaches(g, a, b)
      {
        assert ExactAt(IsAncestor, g, b);
      }
    }
  }

  /** Where heights fall along every parent link, the answer is reachability. */
  lemma FallingIsExact(g: Graph)
    requires Linked(g) && |g| <= MAX_ANCESTOR_BFS_NODES
    requires forall c, p :: IsParent(g, p, c) ==> g[p].height < g[c].height
    ensures Exact(IsAncestor, g)
  {
    AnswerExactIff(g);
  }

  // ---------- the answer depends on the past alone ----------

  lemma {:induction false} DownSame(g1: Graph, g2: Graph, x: Hash, h: nat)
    requires Linked(g1) && Linked(g2) && Agree(g1, g2, x)
    ensures Down(g1, x, h) == Down(g2, x, h)
    decreases g1[x].height
  {
    AgreeHere(g1, g2, x);
    if g1[x].height > h {
      assert EntryLinked(g1, x) && EntryLinked(g2, x);
      var p := g1[x].pprev;
      if p != NULL {
        assert p in g1[x].Parents();
        AgreeParent(g1, g2, p, x);
        AgreeHere(g1, g2, p);
        DownSame(g1, g2, p, h);
      }
    }
  }

  lemma {:induction false} SeeAllSame(g1: Graph, g2: Graph, a: Hash, ps: seq<Hash>, f: Frontier)
    requires a in g1 && a in g2 && g1[a] == g2[a] && (forall p :: p in ps ==> Agree(g1, g2, p))
    requires forall x :: x in f.queue ==> Agree(g1, g2, x)
    ensures SeeAll(g1, a, ps, f) == SeeAll(g2, a, ps, f)
    ensures forall x :: x in SeeAll(g1, a, ps, f).queue ==> Agree(g1, g2, x)
    decreases |ps|
  {
    hide Agree;
    if ps != [] && ps[0] != a {
      assert ps[0] in ps;
      AgreeHere(g1, g2, ps[0]);
      SeeAllSame(g1, g2, a, ps[1..], See(g1, a, ps[0], f));
    }
  }

  lemma {:induction false} ExpandSame(g1: Graph, g2: Graph, a: Hash, f: Frontier, front: nat, fuel: nat)
    requires Linked(g1) && Linked(g2) && a in g1 && a in g2 && g1[a] == g2[a]
    requires forall x :: x in f.queue ==> Agree(g1, g2, x)
    ensures Expand(g1, a, f, front, fuel) == Expand(g2, a, f, front, fuel)
    decreases fuel
  {
    hide Agree, Linked, SeeAll;
    if front < |f.queue| && |f.visited| <= MAX_ANCESTOR_BFS_NODES && fuel > 0 {
      var x := f.queue[front];
      AgreeHere(g1, g2, x);
      forall p | p in g1[x].Parents()
        ensures Agree(g1, g2, p)
      {
        AgreeParent(g1, g2, p, x);
      }
      SeeAllSame(g1, g2, a, g1[x].Parents(), f);
      ExpandSame(g1, g2, a, SeeAll(g1, a, g1[x].Parents(), f), front + 1, fuel - 1);
    }
  }

  lemma AnswerSame(g1: Graph, g2: Graph, a: Hash, b: Hash)
    requires Linked(g1) && Linked(g2) && Agree(g1, g2, b)
    ensures IsAncestor(g1, a, b) == IsAncestor(g2, a, b)
  {
    AgreeHere(g1, g2, b);
    if Reaches(g1, a, b) {
      DownSame(g1, g2, b, g1[a].height);
      ExpandSame(g1, g2, a, Frontier(false, [b], {b}), 0, MAX_ANCESTOR_BFS_NODES + 1);
    } else {
      ReachesSame(g1, g2, a, b);
      AnswerSafe(g1);
      AnswerSafe(g2);
    }
  }

  lemma AnswerPastOnly()
    ensures PastOnly(IsAncestor)
  {
    hide IsAncestor, Linked, Agree;
    forall g1: Graph, g2: Graph, a: Hash, b: Hash | Linked(g1) && Linked(g2) && Agree(g1, g2, b)
      ensures IsAncestor(g1, a, b) == IsAncestor(g2, a, b)
    {
      AnswerSame(g1, g2, a, b);
    }
  }

  // ---------- where the search is wrong ----------

  function Bare(pprev: Hash, dagParents: seq<Hash>, height: nat): Block {
    Block(pprev, dagParents, height, 1, NO_DATA)
  }

  /** Two branches, the shorter of which takes the tip of the longer as a parent. */
  function HighParent(): Graph {
    map[1 := Bare(NULL, [], 0), 2 := Bare(1, [], 1), 3 := Bare(2, [], 2), 4 := Bare(3, [], 3),
        5 := Bare(1, [], 1), 6 := Bare(5, [4], 2)]
  }

  /** A block with a parent on a longer branch: the search denies that its own parent is an ancestor. */
  lemma HigherParentDenied()
    ensures var g := HighParent(); Linked(g) && IsParent(g, 4, 6) && Reaches(g, 4, 6) && !Found(g, 4, 6)
  {
    var g := HighParent();
    assert Joins(g, [6, 4], 6, 4);
  }

  /** Two branches of the same height, one with the tip of the other as a parent, and a block on top. */
  function FlatLink(): Graph {
    map[1 := Bare(NULL, [], 0), 2 := Bare(1, [], 1), 3 := Bare(2, [], 2), 4 := Bare(1, [], 1),
        5 := Bare(4, [3], 2), 6 := Bare(5, [], 3), 8 := Bare(3, [], 3)]
  }

  lemma FlatLinkParents()
    ensures var g := FlatLink();
      g[1].Parents() == [] && g[2].Parents() == [1] && g[3].Parents() == [2] && g[4].Parents() == [1]
    ensures var g := FlatLink(); g[5].Parents() == [4, 3] && g[6].Parents() == [5] && g[8].Parents() == [3]
  {
  }

  lemma FlatLinkLevels()
    ensures var g := FlatLink(); Linked(g) && NoneRises(g)
  {
    var g := FlatLink();
    FlatLinkParents();
    forall c, p | IsParent(g, p, c)
      ensures g[p].height <= g[c].height
    {
      FlatLinkAt(p, c);
    }
    forall h | h in g
      ensures EntryLinked(g, h)
    {
      FlatLinkEntry(h);
    }
  }

  lemma FlatLinkAt(p: Hash, c: Hash)
    requires IsParent(FlatLink(), p, c)
    ensures FlatLink()[p].height <= FlatLink()[c].height
  {
    FlatLinkParents();
  }

  lemma FlatLinkEntry(h: Hash)
    requires h in FlatLink()
    ensures EntryLinked(FlatLink(), h)
  {
    FlatLinkParents();
  }

  /**
   No parent is higher than its child, and still the search denies an ancestor behind a link between
   equal heights.
   */
  lemma FlatLinkDenied()
    ensures var g := FlatLink(); Linked(g) && NoneRises(g) && Reaches(g, 3, 6) && !Found(g, 3, 6)
  {
    var g := FlatLink();
    FlatLinkLevels();
    hide Linked, NoneRises;
    assert g[6].Parents() == [5] && g[5].Parents() == [4, 3];
    assert IsParent(g, 5, 6) && IsParent(g, 3, 5);
    assert Joins(g, [6, 5, 3], 6, 3);
    forall s | Joins(g, s, 6, 3)
      ensures !Above(g, s, g[3].height)
    {
      assert IsParent(g, s[0 + 1], s[0]);
      assert s[1] == 5 && g[s[1]].height == 2;
    }
  }
}
