/**
 A node's block index as messages come in. A header enters the index with empty GHOSTDAG
 data; the data is computed once, when the block itself is taken in, from whatever data
 its parents have by then.
 */
module DagNode {
  import opened Dag
  import opened Mergeset
  import opened Ghostdag
  import opened AncestorSearch

  const GENESIS: Hash := 1

  /** A block header: its hash commits to the main parent and the further parents. */
  datatype Header = Header(hash: Hash, prev: Hash, extra: seq<Hash>, work: nat)

  datatype Message = HeaderMsg(hd: Header) | BodyMsg(hd: Header)

  /** The block index, and the blocks of it that have been taken in. */
  datatype Node = Node(index: Graph, taken: set<Hash>)

  // ---------- headers ----------

  predicate Distinct(s: seq<Hash>) {
    forall i, j :: 0 <= i < j < |s| ==> s[i] != s[j]
  }

  /** A further parent that lies on the main chain above the main parent. */
  predicate Descends(g: Graph, q: Hash, prev: Hash)
    requires q in g && prev in g
  {
    g[q].height > g[prev].height && Down(g, q, g[prev].height) == prev
  }

  /**
   The main parent is there; further parents are distinct, and those that are there already do not
   descend from it.
   */
  predicate HeaderOk(g: Graph, hd: Header) {
    hd.hash == GENESIS ||
    (hd.hash != NULL && hd.prev in g && hd.prev !in hd.extra && Distinct(hd.extra)
     && forall i :: 0 <= i < |hd.extra| && hd.extra[i] in g ==> !Descends(g, hd.extra[i], hd.prev))
  }

  /** Those of the further parents that are in the index. */
  function KnownOf(g: Graph, extra: seq<Hash>): seq<Hash> {
    if extra == [] then []
    else (if extra[0] in g then [extra[0]] else []) + KnownOf(g, extra[1..])
  }

  function NewEntry(g: Graph, hd: Header): Block {
    Block(if hd.prev in g then hd.prev else NULL,
      KnownOf(g, hd.extra),
      if hd.prev in g then g[hd.prev].height + 1 else 0,
      hd.work, NO_DATA)
  }

  /** The index once a header has been offered. */
  function Announced(g: Graph, hd: Header): Graph {
    if hd.hash in g || !HeaderOk(g, hd) then g else g[hd.hash := NewEntry(g, hd)]
  }

  lemma {:induction false} KnownOfIn(g: Graph, extra: seq<Hash>)
    ensures forall p :: p in KnownOf(g, extra) <==> p in extra && p in g
    ensures |KnownOf(g, extra)| <= |extra| && (|KnownOf(g, extra)| == |extra| ==> KnownOf(g, extra) == extra)
    ensures (forall p :: p in extra ==> p in g) ==> KnownOf(g, extra) == extra
  {
    if extra != [] {
      KnownOfIn(g, extra[1..]);
      assert extra == [extra[0]] + extra[1..];
    }
  }

  /** Each further parent is looked up by itself, and the order is kept. */
  lemma {:induction false} KnownOfParts(g: Graph, a: seq<Hash>, b: seq<Hash>)
    ensures KnownOf(g, a + b) == KnownOf(g, a) + KnownOf(g, b)
  {
    if a == [] {
      assert a + b == b;
    } else {
      KnownOfParts(g, a[1..], b);
      assert (a + b)[0] == a[0] && (a + b)[1..] == a[1..] + b;
    }
  }

  // ---------- blocks ----------

  /** The further parents up to the first that is not in the index. */
  function Resolved(g: Graph, extra: seq<Hash>): seq<Hash> {
    if extra == [] || extra[0] !in g then [] else [extra[0]] + Resolved(g, extra[1..])
  }

  lemma {:induction false} ResolvedIn(g: Graph, extra: seq<Hash>)
    ensures forall p :: p in Resolved(g, extra) ==> p in extra && p in g
    ensures |Resolved(g, extra)| <= |extra| && (|Resolved(g, extra)| == |extra| ==> Resolved(g, extra) == extra)
    ensures (forall p :: p in extra ==> p in g) ==> Resolved(g, extra) == extra
  {
    if extra != [] && extra[0] in g {
      ResolvedIn(g, extra[1..]);
      assert extra == [extra[0]] + extra[1..];
    }
  }

  /** It is the longest beginning of the list that is all in the index. */
  lemma {:induction false} ResolvedIs(g: Graph, extra: seq<Hash>)
    ensures var n := |Resolved(g, extra)|;
      n <= |extra| && Resolved(g, extra) == extra[..n] && (n < |extra| ==> extra[n] !in g)
      && forall i :: 0 <= i < n ==> extra[i] in g
  {
    if extra != [] && extra[0] in g {
      ResolvedIs(g, extra[1..]);
      var n := |Resolved(g, extra)|;
      assert extra[..n] == [extra[0]] + extra[1..][..n - 1];
      forall i | 0 <= i < n
        ensures extra[i] in g
      {
        assert i > 0 ==> extra[i] == extra[1..][i - 1];
      }
    }
  }

  /** The index once the missing further parents of a block have been looked up again. */
  function Filled(g: Graph, hd: Header): Graph
    requires hd.hash in g
  {
    if |g[hd.hash].dagParents| < |hd.extra| then g[hd.hash := g[hd.hash].(dagParents := Resolved(g, hd.extra))] else g
  }

  /** A block is taken in with data computed from the present data of its parents. */
  ghost predicate Takes(g: Graph, anc: Ancestry, k: nat, h: Hash, d: GhostdagData, n: Node, n': Node)
    requires h in g
  {
    DataFor(g, anc, k, g[h].Parents(), d) && n' == Node(g[h := g[h].(data := d)], n.taken + {h})
  }

  /** Offers a block: its header, then its further parents, then its mergeset may turn it away. */
  ghost predicate BodyStep(n: Node, anc: Ancestry, k: nat, hd: Header, n': Node) {
    var g1 := Announced(n.index, hd);
    if hd.hash !in g1 || hd.hash in n.taken then n' == n.(index := g1)
    else
      var g := Filled(g1, hd);
      if |g[hd.hash].dagParents| < |hd.extra| || Blocked(g, anc, g[hd.hash].Parents()) then n' == n.(index := g)
      else exists d :: Takes(g, anc, k, hd.hash, d, n, n')
  }

  ghost predicate Step(n: Node, anc: Ancestry, k: nat, m: Message, n': Node) {
    match m
    case HeaderMsg(hd) => n' == n.(index := Announced(n.index, hd))
    case BodyMsg(hd) => BodyStep(n, anc, k, hd, n')
  }

  /** The links of the index are in order, and what is not taken in, or has no score, has no data. */
  ghost predicate NodeOk(n: Node) {
    && Linked(n.index) && n.taken <= n.index.Keys
    && forall h :: h in n.index && (h !in n.taken || n.index[h].data.blueScore == 0) ==> n.index[h].data == NO_DATA
  }

  lemma AnnouncedLinked(g: Graph, hd: Header)
    requires Linked(g)
    ensures Linked(Announced(g, hd))
  {
    var g' := Announced(g, hd);
    if g' != g {
      KnownOfIn(g, hd.extra);
      forall h | h in g'
        ensures EntryLinked(g', h)
      {
        if h == hd.hash {
          assert forall p :: p in g'[h].Parents() ==> p in g;
        } else {
          assert EntryLinked(g, h);
        }
      }
    }
  }

  lemma FilledFrame(g: Graph, hd: Header)
    requires hd.hash in g
    ensures Filled(g, hd).Keys == g.Keys && forall h :: h in g && h != hd.hash ==> Filled(g, hd)[h] == g[h]
    ensures var e, e' := g[hd.hash], Filled(g, hd)[hd.hash];
      e' == e.(dagParents := e'.dagParents) && (e' == e || e'.dagParents == Resolved(g, hd.extra))
  {
  }

  lemma FilledEntry(g: Graph, hd: Header)
    requires hd.hash in g && EntryLinked(g, hd.hash) && g[hd.hash].data == NO_DATA
    ensures EntryLinked(Filled(g, hd), hd.hash)
  {
    FilledFrame(g, hd);
    ResolvedIn(g, hd.extra);
    hide Filled, Resolved;
  }

  lemma FilledLinked(g: Graph, hd: Header)
    requires Linked(g) && hd.hash in g && g[hd.hash].data == NO_DATA
    ensures Linked(Filled(g, hd)) && Filled(g, hd).Keys == g.Keys && Filled(g, hd)[hd.hash].data == NO_DATA
    ensures forall h :: h in g && h != hd.hash ==> Filled(g, hd)[h] == g[h]
  {
    var g' := Filled(g, hd);
    FilledFrame(g, hd);
    hide Filled;
    forall h | h in g'
      ensures EntryLinked(g', h)
    {
      assert EntryLinked(g, h);
      if h == hd.hash {
        FilledEntry(g, hd);
      } else {
        SameLinks(g, g', h, hd.hash);
      }
    }
  }

  lemma SameLinks(g: Graph, g': Graph, h: Hash, x: Hash)
    requires h in g && h in g' && g'[h] == g[h] && EntryLinked(g, h) && g'.Keys == g.Keys
    requires x in g && g'[x].height == g[x].height && forall y :: y in g && y != x ==> g'[y] == g[y]
    ensures EntryLinked(g', h)
  {
  }

  lemma DataLinked(g: Graph, h: Hash, d: GhostdagData)
    requires Linked(g) && h in g && (d.selectedParent == NULL || d.selectedParent in g[h].Parents())
    ensures Linked(g[h := g[h].(data := d)])
  {
    var g' := g[h := g[h].(data := d)];
    forall x | x in g'
      ensures EntryLinked(g', x)
    {
      assert EntryLinked(g, x);
      assert g'[x].Parents() == g[x].Parents();
    }
  }

  lemma ParentsKnownIn(g: Graph, h: Hash)
    requires Linked(g) && h in g
    ensures Known(g, g[h].Parents())
  {
    forall i | 0 <= i < |g[h].Parents()|
      ensures g[h].Parents()[i] in g
    {
      ParentKnown(g, h, i);
    }
  }

  /** A later state of the node: what was taken in stays as it is. */
  ghost predicate Extends(n: Node, n': Node) {
    && n.index.Keys <= n'.index.Keys && n.taken <= n'.taken
    && forall h :: h in n.taken && h in n.index ==> n'.index[h] == n.index[h]
  }

  lemma StepOk(n: Node, anc: Ancestry, k: nat, m: Message, n': Node)
    requires NodeOk(n) && Step(n, anc, k, m, n')
    ensures NodeOk(n') && Extends(n, n')
  {
    var hd := m.hd;
    AnnouncedOk(n, hd);
    hide DataFor, Blocked, Announced, Filled, NodeOk, Takes, Extends;
    var n1 := n.(index := Announced(n.index, hd));
    if m.BodyMsg? && hd.hash in n1.index && hd.hash !in n.taken {
      FilledOk(n1, hd);
      var n2 := n1.(index := Filled(n1.index, hd));
      ExtendsOn(n, n1, n2);
      if n' != n2 {
        var d :| Takes(n2.index, anc, k, hd.hash, d, n, n');
        TakesOk(n2, anc, k, hd.hash, d, n, n');
        ExtendsOn(n, n2, n');
      }
    }
  }

  lemma ExtendsOn(n1: Node, n2: Node, n3: Node)
    requires Extends(n1, n2) && Extends(n2, n3)
    ensures Extends(n1, n3)
  {
  }

  lemma AnnouncedOk(n: Node, hd: Header)
    requires NodeOk(n)
    ensures var n1 := n.(index := Announced(n.index, hd)); NodeOk(n1) && Extends(n, n1)
  {
    AnnouncedLinked(n.index, hd);
    hide Linked, HeaderOk;
  }

  lemma FilledOk(n: Node, hd: Header)
    requires NodeOk(n) && hd.hash in n.index && hd.hash !in n.taken
    ensures var n1 := n.(index := Filled(n.index, hd)); NodeOk(n1) && Extends(n, n1) && hd.hash in n1.index
  {
    FilledLinked(n.index, hd);
    hide Linked, Filled;
  }

  lemma TakesOk(n1: Node, anc: Ancestry, k: nat, h: Hash, d: GhostdagData, n: Node, n': Node)
    requires NodeOk(n1) && n1.taken == n.taken && h in n1.index && h !in n.taken
    requires Takes(n1.index, anc, k, h, d, n, n')
    ensures NodeOk(n') && Extends(n1, n')
  {
    var g := n1.index;
    hide Linked, DataFor;
    ParentsKnownIn(g, h);
    ScoreRises(g, anc, k, g[h].Parents(), d);
    NoScoreNoData(g, anc, k, g[h].Parents(), d);
    DataLinked(g, h, d);
  }

  lemma NoScoreNoData(g: Graph, anc: Ancestry, k: nat, parents: seq<Hash>, d: GhostdagData)
    requires DataFor(g, anc, k, parents, d)
    ensures d.blueScore == 0 ==> d == NO_DATA
  {
  }

  method ProcessHeader(n: Node, hd: Header) returns (n': Node)
    ensures n' == n.(index := Announced(n.index, hd))
  {
    n' := n;
    if hd.hash !in n.index && HeaderOk(n.index, hd) {
      n' := n.(index := n.index[hd.hash := NewEntry(n.index, hd)]);
    }
  }

  /** Takes a requested block in, or turns it away. */
  method ProcessBlock(n: Node, anc: Ancestry, k: nat, hd: Header) returns (n': Node)
    requires NodeOk(n)
    ensures Step(n, anc, k, BodyMsg(hd), n')
  {
    hide Linked, DataFor, Blocked, HeaderOk;
    AnnouncedLinked(n.index, hd);
    n' := ProcessHeader(n, hd);
    var g := n'.index;
    if hd.hash !in g || hd.hash in n.taken {
      return;
    }
    FilledLinked(g, hd);
    if |g[hd.hash].dagParents| < |hd.extra| {
      g := g[hd.hash := g[hd.hash].(dagParents := Resolved(g, hd.extra))];
      n' := n.(index := g);
      if |g[hd.hash].dagParents| < |hd.extra| {
        return;
      }
    }
    ParentsKnownIn(g, hd.hash);
    var d := ComputeGhostdag(g, anc, k, g[hd.hash].Parents());
    if d.None? {
      return;
    }
    n' := Node(g[hd.hash := g[hd.hash].(data := d.value)], n.taken + {hd.hash});
    assert Takes(g, anc, k, hd.hash, d.value, n, n');
  }
}
