/**
 The order of a set of blocks: parents before children, found by counting parents down. Where
 scores rise from parents to children it comes to sorting by score.
 */
module TopoOrder {
  import opened Dag

  predicate AllIn(g: Graph, s: seq<Hash>) {
    forall i :: 0 <= i < |s| ==> s[i] in g
  }

  function Members(s: seq<Hash>): set<Hash> {
    set x | x in s
  }

  /** Among the given blocks, parents come before their children by score and hash. */
  ghost predicate Rising(g: Graph, all: set<Hash>) {
    forall p, c :: p in all && c in all && IsParent(g, p, c) ==> Before(g, p, c)
  }

  // ---------- counting parents ----------

  /** How many entries of a parent list are in a set. */
  ghost function Degree(parents: seq<Hash>, open: set<Hash>): nat {
    if parents == [] then 0
    else Degree(parents[..|parents| - 1], open) + if parents[|parents| - 1] in open then 1 else 0
  }

  lemma {:induction false} DegreeLess(parents: seq<Hash>, open: set<Hash>, h: Hash)
    requires h in open
    ensures Degree(parents, open - {h}) + multiset(parents)[h] == Degree(parents, open)
  {
    if parents != [] {
      var n := |parents| - 1;
      DegreeLess(parents[..n], open, h);
      assert parents == parents[..n] + [parents[n]];
    }
  }

  lemma {:induction false} DegreeZero(parents: seq<Hash>, open: set<Hash>)
    ensures Degree(parents, open) == 0 <==> forall i :: 0 <= i < |parents| ==> parents[i] !in open
  {
    if parents != [] {
      var n := |parents| - 1;
      DegreeZero(parents[..n], open);
      if Degree(parents, open) == 0 {
        forall i | 0 <= i < |parents|
          ensures parents[i] !in open
        {
          assert i < n ==> parents[..n][i] !in open;
        }
      } else if parents[n] !in open {
        var i :| 0 <= i < n && parents[..n][i] in open;
        assert parents[i] in open;
      }
    }
  }

  /** Some block without an open parent comes no later than any open block. */
  lemma {:induction false} ReadyBelow(g: Graph, open: set<Hash>, u: Hash) returns (w: Hash)
    requires Rising(g, open) && u in open && forall x :: x in open ==> x in g
    ensures w in open && Degree(g[w].Parents(), open) == 0 && (w == u || Before(g, w, u))
    decreases Score(g, u), u
  {
    DegreeZero(g[u].Parents(), open);
    if Degree(g[u].Parents(), open) == 0 {
      w := u;
    } else {
      var i :| 0 <= i < |g[u].Parents()| && g[u].Parents()[i] in open;
      var p := g[u].Parents()[i];
      assert IsParent(g, p, u);
      w := ReadyBelow(g, open, p);
    }
  }

  // ---------- the state of the count-down ----------

  function ListAt(children: map<Hash, seq<Hash>>, p: Hash): seq<Hash> {
    if p in children then children[p] else []
  }

  /** Each block is listed below each of its parents, as often as it names it. */
  ghost predicate Listed(g: Graph, all: set<Hash>, children: map<Hash, seq<Hash>>) {
    forall p, x :: p in all ==>
      multiset(ListAt(children, p))[x] == if x in all && x in g then multiset(g[x].Parents())[p] else 0
  }

  ghost predicate Degrees(g: Graph, open: set<Hash>, degree: map<Hash, int>) {
    forall x :: x in open ==> x in g && x in degree && degree[x] == Degree(g[x].Parents(), open)
  }

  ghost predicate Ready(open: set<Hash>, degree: map<Hash, int>, pq: seq<Hash>) {
    forall x :: x in pq <==> x in open && x in degree && degree[x] == 0
  }

  /** What has been put out, each block once and after its parents; no parent of it is open. */
  ghost predicate Emitted(g: Graph, all: set<Hash>, open: set<Hash>, order: seq<Hash>) {
    && open <= all && (forall x :: x in all ==> x in g)
    && NoRepeats(order) && (forall x :: x in order <==> x in all && x !in open)
    && (forall x :: x in order ==> x in g && Degree(g[x].Parents(), open) == 0)
    && ParentsBefore(g, all, order)
  }

  ghost predicate ParentsBefore(g: Graph, all: set<Hash>, order: seq<Hash>) {
    forall i :: 0 <= i < |order| && order[i] in g ==>
      forall p :: p in g[order[i]].Parents() && p in all ==> p in order[..i]
  }

  /** It is in order, and comes before all that is open. */
  ghost predicate InOrder(g: Graph, open: set<Hash>, order: seq<Hash>) {
    Ascending(g, order) && forall x, y :: x in order && y in open ==> Before(g, x, y)
  }

  lemma RisingLess(g: Graph, all: set<Hash>, open: set<Hash>)
    requires Rising(g, all) && open <= all
    ensures Rising(g, open)
  {
  }

  /** The first of the ready blocks comes before every other open block. */
  lemma FirstIsLeast(g: Graph, open: set<Hash>, degree: map<Hash, int>, pq: seq<Hash>, u: Hash)
    requires Rising(g, open) && Degrees(g, open, degree) && Ready(open, degree, pq) && Ascending(g, pq) && pq != []
    requires u in open
    ensures u == pq[0] || Before(g, pq[0], u)
  {
    var w := ReadyBelow(g, open, u);
    assert w in pq;
  }

  lemma FirstReady(g: Graph, open: set<Hash>, degree: map<Hash, int>, pq: seq<Hash>)
    requires Degrees(g, open, degree) && Ready(open, degree, pq) && pq != []
    ensures pq[0] in open && pq[0] in g && Degree(g[pq[0]].Parents(), open) == 0
  {
    assert pq[0] in pq;
  }

  lemma Emit(g: Graph, all: set<Hash>, open: set<Hash>, order: seq<Hash>, h: Hash)
    requires Emitted(g, all, open, order) && h in open && h in g && Degree(g[h].Parents(), open) == 0
    ensures Emitted(g, all, open - {h}, order + [h])
  {
    hide Degree, Block.Parents, ParentsBefore;
    var order' := order + [h];
    forall x | x in order'
      ensures x in g && Degree(g[x].Parents(), open - {h}) == 0
    {
      DegreeLess(g[x].Parents(), open, h);
    }
    DegreeZero(g[h].Parents(), open);
    EmitAfter(g, all, open, order, h);
  }

  lemma EmitAfter(g: Graph, all: set<Hash>, open: set<Hash>, order: seq<Hash>, h: Hash)
    requires ParentsBefore(g, all, order) && (forall x :: x in order <==> x in all && x !in open) && h in g
    requires forall i :: 0 <= i < |g[h].Parents()| ==> g[h].Parents()[i] !in open
    ensures ParentsBefore(g, all, order + [h])
  {
    hide Block.Parents;
    var order' := order + [h];
    forall i | 0 <= i < |order'| && order'[i] in g
      ensures forall p :: p in g[order'[i]].Parents() && p in all ==> p in order'[..i]
    {
      if i < |order| {
        assert order'[..i] == order[..i];
      } else {
        assert order'[..i] == order;
      }
    }
  }

  lemma EmitInOrder(g: Graph, open: set<Hash>, order: seq<Hash>, degree: map<Hash, int>, pq: seq<Hash>)
    requires Rising(g, open) && Degrees(g, open, degree) && Ready(open, degree, pq) && Ascending(g, pq) && pq != []
    requires InOrder(g, open, order) && pq[0] in open
    ensures InOrder(g, open - {pq[0]}, order + [pq[0]])
  {
    var h := pq[0];
    forall y | y in open && y != h
      ensures Before(g, h, y)
    {
      FirstIsLeast(g, open, degree, pq, y);
    }
    hide Degrees, Ready, Rising, Before;
  }

  // ---------- counting up ----------

  /** How often a block is listed below another. */
  ghost function Times(children: map<Hash, seq<Hash>>, p: Hash, x: Hash): nat {
    multiset(ListAt(children, p))[x]
  }

  /** How often it should be, with the blocks of `done` and the first parents of `h` entered. */
  ghost function Expected(g: Graph, done: seq<Hash>, h: Hash, some: seq<Hash>, p: Hash, x: Hash): nat {
    if x in done && x in g then multiset(g[x].Parents())[p] else if x == h then multiset(some)[p] else 0
  }

  ghost predicate ListedTo(
    g: Graph, all: set<Hash>, children: map<Hash, seq<Hash>>, done: seq<Hash>, h: Hash, some: seq<Hash>)
  {
    forall p, x :: p in all ==> Times(children, p, x) == Expected(g, done, h, some, p, x)
  }

  lemma TimesPut(children: map<Hash, seq<Hash>>, p: Hash, h: Hash, q: Hash, x: Hash)
    ensures Times(children[p := ListAt(children, p) + [h]], q, x) ==
      Times(children, q, x) + if q == p && x == h then 1 else 0
  {
    assert multiset(ListAt(children, p) + [h]) == multiset(ListAt(children, p)) + multiset{h};
  }

  lemma ExpectMore(g: Graph, done: seq<Hash>, h: Hash, some: seq<Hash>, p: Hash, q: Hash, x: Hash)
    requires h !in done
    ensures Expected(g, done, h, some + [p], q, x) ==
      Expected(g, done, h, some, q, x) + if q == p && x == h then 1 else 0
  {
    assert multiset(some + [p]) == multiset(some) + multiset{p};
  }

  lemma ListOne(
    g: Graph, all: set<Hash>, children: map<Hash, seq<Hash>>, done: seq<Hash>, h: Hash, some: seq<Hash>, p: Hash)
    requires ListedTo(g, all, children, done, h, some) && h !in done
    ensures p in all ==> ListedTo(g, all, children[p := ListAt(children, p) + [h]], done, h, some + [p])
    ensures p !in all ==> ListedTo(g, all, children, done, h, some + [p])
  {
    hide Times, Expected;
    forall q, x | q in all
      ensures Expected(g, done, h, some + [p], q, x) ==
        Expected(g, done, h, some, q, x) + if q == p && x == h then 1 else 0
      ensures Times(children[p := ListAt(children, p) + [h]], q, x) ==
        Times(children, q, x) + if q == p && x == h then 1 else 0
    {
      TimesPut(children, p, h, q, x);
      ExpectMore(g, done, h, some, p, q, x);
    }
  }

  lemma NextBlock(g: Graph, all: set<Hash>, children: map<Hash, seq<Hash>>, done: seq<Hash>, h: Hash, next: Hash)
    requires h in g && ListedTo(g, all, children, done, h, g[h].Parents())
    ensures ListedTo(g, all, children, done + [h], next, [])
  {
    hide Times;
    assert forall x :: x in done + [h] <==> x in done || x == h;
  }

  lemma NoneListed(g: Graph, all: set<Hash>, h: Hash)
    ensures ListedTo(g, all, map[], [], h, [])
  {
  }

  lemma AllListed(g: Graph, all: set<Hash>, children: map<Hash, seq<Hash>>, walk: seq<Hash>, h: Hash)
    requires ListedTo(g, all, children, walk, h, []) && forall x :: x in all <==> x in walk
    ensures Listed(g, all, children)
  {
    forall p, x | p in all
      ensures multiset(ListAt(children, p))[x] == if x in all && x in g then multiset(g[x].Parents())[p] else 0
    {
      assert Times(children, p, x) == Expected(g, walk, h, [], p, x);
    }
  }

  /** Enters one block below each of its parents that take part. */
  method EnterBlock(g: Graph, all: set<Hash>, children: map<Hash, seq<Hash>>, h: Hash, ghost done: seq<Hash>)
    returns (degree: nat, children': map<Hash, seq<Hash>>)
    requires h in g && h !in done && ListedTo(g, all, children, done, h, [])
    ensures degree == Degree(g[h].Parents(), all) && ListedTo(g, all, children', done, h, g[h].Parents())
  {
    hide ListedTo, Block.Parents;
    degree, children' := 0, children;
    var pars := g[h].Parents();
    assert pars[..0] == [];
    for j := 0 to |pars|
      invariant degree == Degree(pars[..j], all) && ListedTo(g, all, children', done, h, pars[..j])
    {
      assert pars[..j + 1][..j] == pars[..j] && pars[..j + 1] == pars[..j] + [pars[j]];
      var p := pars[j];
      ListOne(g, all, children', done, h, pars[..j], p);
      if p in all {
        degree := degree + 1;
        children' := children'[p := ListAt(children', p) + [h]];
      }
    }
    assert pars[..|pars|] == pars;
  }

  method CountParents(
    g: Graph, walk: seq<Hash>, all: set<Hash>) returns (degree: map<Hash, int>, children: map<Hash, seq<Hash>>)
    requires AllIn(g, walk) && NoRepeats(walk) && forall x :: x in all <==> x in walk
    ensures Degrees(g, all, degree) && Listed(g, all, children)
  {
    hide ListedTo, Degree, Listed;
    degree, children := map[], map[];
    NoneListed(g, all, if 0 < |walk| then walk[0] else NULL);
    assert walk[..0] == [];
    for i := 0 to |walk|
      invariant ListedTo(g, all, children, walk[..i], if i < |walk| then walk[i] else NULL, [])
      invariant forall x :: x in walk[..i] ==> x in g && x in degree && degree[x] == Degree(g[x].Parents(), all)
    {
      var h := walk[i];
      assert h !in walk[..i];
      var d;
      d, children := EnterBlock(g, all, children, h, walk[..i]);
      degree := degree[h := d];
      assert walk[..i + 1] == walk[..i] + [h];
      NextBlock(g, all, children, walk[..i], h, if i + 1 < |walk| then walk[i + 1] else NULL);
    }
    assert walk[..|walk|] == walk;
    AllListed(g, all, children, walk, NULL);
  }

  // ---------- counting down ----------

  /** Part of the way through the children of the block just put out. */
  ghost predicate Releasing(
    g: Graph, open: set<Hash>, h: Hash, degree: map<Hash, int>, pq: seq<Hash>, done: seq<Hash>)
  {
    && (forall x :: x in open - {h} ==>
        x in g && x in degree && degree[x] == Degree(g[x].Parents(), open) - multiset(done)[x])
    && Ready(open - {h}, degree, pq) && Ascending(g, pq)
  }

  /** A child of an open block is open, is another block, and still counts it. */
  lemma ChildOpen(
    g: Graph, all: set<Hash>, open: set<Hash>, order: seq<Hash>, children: map<Hash, seq<Hash>>, h: Hash, j: nat)
    requires Emitted(g, all, open, order) && Listed(g, all, children) && j < |ListAt(children, h)|
    requires h in open && h in g && Degree(g[h].Parents(), open) == 0
    ensures var list := ListAt(children, h); var c := list[j];
      c in open && c != h && c in g && multiset(list[..j])[c] < Degree(g[c].Parents(), open)
  {
    DegreeZero(g[h].Parents(), open);
    hide Block.Parents, Degree, ListAt, ParentsBefore, NoRepeats;
    var list := ListAt(children, h);
    var c := list[j];
    CountBefore(list, j);
    assert c in all && c in g && multiset(g[c].Parents())[h] == multiset(list)[c];
    var parents := g[c].Parents();
    hide Listed;
    assert h in parents;
    DegreeLess(parents, open, h);
    assert c !in order;
  }

  lemma CountBefore(list: seq<Hash>, j: nat)
    requires j < |list|
    ensures multiset(list)[list[j]] >= multiset(list[..j])[list[j]] + 1
  {
    assert list == list[..j] + [list[j]] + list[j + 1..];
  }

  /** Counts the children of a block down; those that reach zero become ready. */
  method Release(g: Graph, all: set<Hash>, open: set<Hash>, order: seq<Hash>, h: Hash, children: map<Hash, seq<Hash>>,
    degree: map<Hash, int>, pq: seq<Hash>)
    returns (degree': map<Hash, int>, pq': seq<Hash>)
    requires Emitted(g, all, open, order) && Listed(g, all, children)
    requires h in open && h in g && Degree(g[h].Parents(), open) == 0
    requires open <= all && Releasing(g, open, h, degree, pq, [])
    ensures Degrees(g, open - {h}, degree') && Ready(open - {h}, degree', pq') && Ascending(g, pq')
  {
    hide Emitted, Listed, Degree, Releasing, Ascending, Degrees, Ready, Block.Parents, ListAt;
    degree', pq' := degree, pq;
    var list := ListAt(children, h);
    assert list[..0] == [];
    for j := 0 to |list|
      invariant Releasing(g, open, h, degree', pq', list[..j])
    {
      ChildOpen(g, all, open, order, children, h, j);
      var child := list[j];
      assert list[..j + 1] == list[..j] + [child];
      ReleaseFacts(g, open, h, degree', pq', list[..j], child);
      ghost var d, q := degree', pq';
      degree' := degree'[child := degree'[child] - 1];
      if degree'[child] == 0 {
        pq' := Insert(g, pq', child);
      }
      ReleaseStep(g, open, h, d, q, list[..j], child, pq');
    }
    assert list[..|list|] == list;
    Released(g, all, open, h, children, degree', pq');
    ReleaseReady(g, open, h, degree', pq', list);
  }

  lemma ReleaseFacts(
    g: Graph, open: set<Hash>, h: Hash, degree: map<Hash, int>, pq: seq<Hash>, done: seq<Hash>, child: Hash)
    requires Releasing(g, open, h, degree, pq, done) && child in open && child != h && child in g
    requires multiset(done)[child] < Degree(g[child].Parents(), open)
    ensures child in degree && degree[child] > 0 && child !in pq && Ascending(g, pq)
  {
  }

  lemma ReleaseReady(g: Graph, open: set<Hash>, h: Hash, degree: map<Hash, int>, pq: seq<Hash>, done: seq<Hash>)
    requires Releasing(g, open, h, degree, pq, done)
    ensures Ready(open - {h}, degree, pq) && Ascending(g, pq)
  {
  }

  lemma ReleaseStep(
    g: Graph, open: set<Hash>, h: Hash, degree: map<Hash, int>, pq: seq<Hash>, done: seq<Hash>, child: Hash,
    pq': seq<Hash>)
    requires Releasing(g, open, h, degree, pq, done) && child in open && child != h && child in g && child in degree
    requires degree[child] > 0
    requires Ascending(g, pq') && forall x :: x in pq' <==> x in pq || (x == child && degree[child] == 1)
    ensures Releasing(g, open, h, degree[child := degree[child] - 1], pq', done + [child])
  {
    hide Degree, Ascending;
    assert multiset(done + [child]) == multiset(done) + multiset{child};
  }

  lemma Released(
    g: Graph, all: set<Hash>, open: set<Hash>, h: Hash, children: map<Hash, seq<Hash>>, degree: map<Hash, int>,
    pq: seq<Hash>)
    requires Listed(g, all, children) && h in open && open <= all
    requires Releasing(g, open, h, degree, pq, ListAt(children, h))
    ensures Degrees(g, open - {h}, degree)
  {
    forall x | x in open - {h}
      ensures x in g && x in degree && degree[x] == Degree(g[x].Parents(), open - {h})
    {
      DegreeLess(g[x].Parents(), open, h);
    }
  }

  /**
   Blocks once each, every one after its parents; `walk` is the order of the hash table. What is
   left out has a parent that is left out. Nothing is left out and the order is by score and hash
   exactly if parents come before children by score and hash.
   */
  method TopologicalOrder(g: Graph, walk: seq<Hash>) returns (order: seq<Hash>)
    requires AllIn(g, walk) && NoRepeats(walk)
    ensures NoRepeats(order) && ParentsBefore(g, Members(walk), order) && forall x :: x in order ==> x in walk
    ensures forall x :: x in walk && x !in order ==> exists p :: p in g[x].Parents() && p in walk && p !in order
    ensures Rising(g, Members(walk)) <==> Ascending(g, order) && forall x :: x in walk ==> x in order
  {
    var all := Members(walk);
    var degree, children := CountParents(g, walk, all);
    var pq := Roots(g, walk, all, degree);
    order := [];
    var open := all;
    ghost var rising := Rising(g, all);
    assert Emitted(g, all, open, order) && InOrder(g, open, order);
    hide Emitted, Listed, Degrees, Ready, Ascending, Degree, InOrder, Rising, ParentsBefore, NoRepeats, Members;
    while pq != []
      invariant Emitted(g, all, open, order) && Degrees(g, open, degree) && Ready(open, degree, pq) && Ascending(g, pq)
      invariant open <= all && (rising ==> InOrder(g, open, order))
      decreases open
    {
      var h := pq[0];
      FirstReady(g, open, degree, pq);
      if rising {
        RisingLess(g, all, open);
        EmitInOrder(g, open, order, degree, pq);
      }
      Emit(g, all, open, order, h);
      Popped(g, open, degree, pq);
      degree, pq := Release(g, all, open, order, h, children, degree, pq[1..]);
      order := order + [h];
      open := open - {h};
    }
    Done(g, walk, open, order, degree);
  }

  lemma Done(g: Graph, walk: seq<Hash>, open: set<Hash>, order: seq<Hash>, degree: map<Hash, int>)
    requires Emitted(g, Members(walk), open, order) && Degrees(g, open, degree) && Ready(open, degree, [])
    requires open <= Members(walk) && (Rising(g, Members(walk)) ==> InOrder(g, open, order))
    ensures NoRepeats(order) && ParentsBefore(g, Members(walk), order) && forall x :: x in order ==> x in walk
    ensures forall x :: x in walk && x !in order ==>
      x in g && exists p :: p in g[x].Parents() && p in walk && p !in order
    ensures Rising(g, Members(walk)) <==> Ascending(g, order) && forall x :: x in walk ==> x in order
  {
    hide Emitted, Degrees, Ready, Ascending, InOrder, Rising, ParentsBefore, NoRepeats;
    var all := Members(walk);
    AllOut(g, all, open, order, degree, []);
    if Ascending(g, order) && forall x :: x in walk ==> x in order {
      OrderRises(g, all, order);
    }
  }

  lemma OrderRises(g: Graph, all: set<Hash>, order: seq<Hash>)
    requires ParentsBefore(g, all, order) && Ascending(g, order) && forall x :: x in all ==> x in order
    ensures Rising(g, all)
  {
    forall p, c | p in all && c in all && IsParent(g, p, c)
      ensures Before(g, p, c)
    {
      var j :| 0 <= j < |order| && order[j] == c;
      assert p in order[..j];
    }
  }

  lemma Popped(g: Graph, open: set<Hash>, degree: map<Hash, int>, pq: seq<Hash>)
    requires Degrees(g, open, degree) && Ready(open, degree, pq) && Ascending(g, pq) && pq != []
    ensures Releasing(g, open, pq[0], degree, pq[1..], [])
  {
    var h, rest := pq[0], pq[1..];
    assert pq == [h] + rest;
    assert h !in rest;
  }

  lemma AllOut(g: Graph, all: set<Hash>, open: set<Hash>, order: seq<Hash>, degree: map<Hash, int>, pq: seq<Hash>)
    requires Emitted(g, all, open, order) && Degrees(g, open, degree) && Ready(open, degree, pq) && pq == []
    ensures NoRepeats(order) && ParentsBefore(g, all, order) && forall x :: x in order <==> x in all && x !in open
    ensures forall x :: x in open ==> x in g && exists p :: p in g[x].Parents() && p in open
    ensures Rising(g, all) ==> open == {}
    ensures InOrder(g, open, order) ==> Ascending(g, order)
  {
    forall x | x in open
      ensures x in g && exists p :: p in g[x].Parents() && p in open
    {
      DegreeZero(g[x].Parents(), open);
      assert x !in pq;
    }
    if Rising(g, all) && open != {} {
      var u :| u in open;
      RisingLess(g, all, open);
      SomeReady(g, open, degree, pq, u);
    }
  }

  /** While blocks are open, some is ready. */
  lemma SomeReady(g: Graph, open: set<Hash>, degree: map<Hash, int>, pq: seq<Hash>, u: Hash)
    requires Rising(g, open) && Degrees(g, open, degree) && Ready(open, degree, pq) && u in open
    ensures pq != []
  {
    var w := ReadyBelow(g, open, u);
    assert w in pq;
  }

  /** The blocks without a parent that takes part. */
  method Roots(g: Graph, walk: seq<Hash>, all: set<Hash>, degree: map<Hash, int>) returns (pq: seq<Hash>)
    requires NoRepeats(walk) && Degrees(g, all, degree) && forall x :: x in all <==> x in walk
    ensures Ascending(g, pq) && Ready(all, degree, pq)
  {
    pq := [];
    for i := 0 to |walk|
      invariant Ascending(g, pq) && forall x :: x in pq <==> x in walk[..i] && x in degree && degree[x] == 0
    {
      assert walk[i] !in walk[..i];
      assert walk[..i + 1] == walk[..i] + [walk[i]];
      assert walk[i] in all;
      if degree[walk[i]] == 0 {
        pq := Insert(g, pq, walk[i]);
      }
    }
    assert walk[..|walk|] == walk;
  }

  /** An ascending list has every block after all it reaches. */
  lemma AncestorsFirst(g: Graph, order: seq<Hash>, i: nat, j: nat)
    requires Ascending(g, order) && i < |order| && j < |order| && i != j
    requires Scored(g, order[j]) && Reaches(g, order[i], order[j])
    ensures i < j
  {
    ReachesScore(g, order[i], order[j]);
    assert order[i] != order[j] ==> Before(g, order[i], order[j]);
  }
}
