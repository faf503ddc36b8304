/**
 What becomes of a block that is taken in before one of its parents: exactly when its selected
 parent and score are right later on, exactly when all its data is, for one parent or as long as
 nothing behind the selected one changes, and runs in which it does and does not go wrong.
 */
module DagLate {
  import opened Dag
  import opened Mergeset
  import opened Ghostdag
  import opened DagAgreement
  import opened AncestorSearch
  import opened DagNode
  import opened DagRuns

  // ---------- the selected parent and the score ----------

  /** A message took a block in, and some time has passed since. */
  ghost predicate TookAndLater(n: Node, anc: Ancestry, k: nat, m: Message, n': Node, later: Node) {
    && NodeOk(n) && Step(n, anc, k, m, n') && n'.taken != n.taken
    && Extends(n', later) && m.hd.hash in later.index
  }

  /** The index at the moment the data was computed. */
  lemma Moment(n: Node, anc: Ancestry, k: nat, m: Message, n': Node, later: Node) returns (g: Graph)
    requires TookAndLater(n, anc, k, m, n', later)
    ensures Linked(g) && m.hd.hash in g && later.index[m.hd.hash] == g[m.hd.hash].(data := later.index[m.hd.hash].data)
    ensures DataFor(g, anc, k, later.index[m.hd.hash].Parents(), later.index[m.hd.hash].data)
    ensures forall c :: Score(g, c) <= Score(later.index, c)
    ensures forall c :: c in n.taken ==> c in g && c in later.index && c != m.hd.hash && g[c] == later.index[c]
    ensures forall c :: c !in n.taken ==> Score(g, c) == 0 && (c in g ==> g[c].data == NO_DATA)
  {
    g := TookIn(n, anc, k, m, n');
    StepOk(n, anc, k, m, n');
    hide Step, Linked, DataFor;
    var h := m.hd.hash;
    assert later.index[h] == n'.index[h];
    forall c
      ensures Score(g, c) <= Score(later.index, c)
      ensures c in n.taken ==> c in g && c in later.index && c != h && g[c] == later.index[c]
      ensures c !in n.taken ==> Score(g, c) == 0 && (c in g ==> g[c].data == NO_DATA)
    {
      if c in g && c != h {
        assert n'.index[c] == g[c];
      }
    }
  }

  /**
   However late its parents were: the selected parent and the score of a block are those that its
   best parent at any later time calls for if and only if that parent was taken in before the
   block, or has no score even then.
   */
  lemma LateParentIff(n: Node, anc: Ancestry, k: nat, m: Message, n': Node, later: Node, p: Hash)
    requires TookAndLater(n, anc, k, m, n', later)
    requires p != m.hd.hash && IsBest(later.index, later.index[m.hd.hash].Parents(), p)
    ensures var d := later.index[m.hd.hash].data;
      (d.selectedParent == p && d.blueScore == Score(later.index, p) + |d.blues| + 1)
      <==> (p in n.taken || Score(later.index, p) == 0)
  {
    var g := Moment(n, anc, k, m, n', later);
    hide TookAndLater;
    var h := m.hd.hash;
    var parents, d := later.index[h].Parents(), later.index[h].data;
    ParentsKnownIn(g, h);
    DataHasBest(g, anc, k, parents, d, p);
    hide DataFor, Linked;
    if p in n.taken || Score(later.index, p) == 0 {
      BestBefore(g, later.index, parents, p);
      BestUnique(g, parents, p, d.selectedParent);
    }
  }

  lemma DataHasBest(g: Graph, anc: Ancestry, k: nat, parents: seq<Hash>, d: GhostdagData, p: Hash)
    requires DataFor(g, anc, k, parents, d) && p in parents
    ensures IsBest(g, parents, d.selectedParent) && d.blueScore == Score(g, d.selectedParent) + |d.blues| + 1
  {
  }

  /** The best parent later on was the best when scores were no higher and its own was the same. */
  lemma BestBefore(g: Graph, g': Graph, parents: seq<Hash>, p: Hash)
    requires IsBest(g', parents, p) && p in g && Score(g, p) == Score(g', p) && forall c :: Score(g, c) <= Score(g', c)
    ensures IsBest(g, parents, p)
  {
  }

  /** So a block taken in before its best parent has wrong data for good, once that parent has a score. */
  lemma LateBestParent(n: Node, anc: Ancestry, k: nat, m: Message, n': Node, later: Node, p: Hash)
    requires TookAndLater(n, anc, k, m, n', later) && p !in n.taken
    requires p != m.hd.hash && IsBest(later.index, later.index[m.hd.hash].Parents(), p) && Score(later.index, p) > 0
    ensures !DataFor(later.index, anc, k, later.index[m.hd.hash].Parents(), later.index[m.hd.hash].data)
  {
    LateParentIff(n, anc, k, m, n', later, p);
    hide TookAndLater;
    var parents, d := later.index[m.hd.hash].Parents(), later.index[m.hd.hash].data;
    if DataFor(later.index, anc, k, parents, d) {
      DataHasBest(later.index, anc, k, parents, d, p);
      BestUnique(later.index, parents, p, d.selectedParent);
    }
  }

  // ---------- one parent ----------

  /** The data of a block without further parents. */
  function PlainData(g: Graph, p: Hash): GhostdagData {
    if p in g then GhostdagData(Score(g, p) + 1, p, [], [], g[p].data.blueWork % MOD64) else NO_DATA
  }

  lemma NeverBlocked(g: Graph, anc: Ancestry, p: Hash)
    ensures !Blocked(g, anc, []) && !Blocked(g, anc, [p])
  {
  }

  lemma PlainIff(g: Graph, anc: Ancestry, k: nat, p: Hash, d: GhostdagData)
    requires p in g
    ensures DataFor(g, anc, k, [p], d) <==> d == PlainData(g, p)
  {
    if DataFor(g, anc, k, [p], d) {
      OneParent(g, anc, k, p, d);
    }
    if d == PlainData(g, p) {
      assert IsBest(g, [p], p);
      NeverBlocked(g, anc, p);
      forall x
        ensures !Met(g, anc, [p], p, x)
      {
        NothingBeside(g, anc, p, x);
      }
      hide Met, Chain, TooMany;
      assert Colours(g, anc, k, [p], d, []);
    }
  }

  /**
   A block with a single parent has, at any later time, all the data that parent then calls for
   if and only if the parent was taken in before the block, or has no score even then.
   */
  lemma OneParentIff(n: Node, anc: Ancestry, k: nat, m: Message, n': Node, later: Node, p: Hash)
    requires TookAndLater(n, anc, k, m, n', later) && NodeOk(later)
    requires p != m.hd.hash && later.index[m.hd.hash].Parents() == [p]
    ensures DataFor(later.index, anc, k, [p], later.index[m.hd.hash].data)
       <==> (p in n.taken || Score(later.index, p) == 0)
  {
    var g := Moment(n, anc, k, m, n', later);
    var h := m.hd.hash;
    ParentsKnownIn(g, h);
    ParentsKnownIn(later.index, h);
    hide TookAndLater, Linked, DataFor, Score;
    assert p == [p][0];
    PlainIff(g, anc, k, p, later.index[h].data);
    PlainIff(later.index, anc, k, p, later.index[h].data);
    PlainSame(g, later.index, p);
  }

  lemma PlainSame(g: Graph, g': Graph, p: Hash)
    requires p in g && p in g'
    ensures Score(g, p) != Score(g', p) ==> PlainData(g, p) != PlainData(g', p)
    ensures g[p].data == g'[p].data ==> PlainData(g, p) == PlainData(g', p)
    ensures g[p].data.blueScore == Score(g, p) && g'[p].data.blueScore == Score(g', p)
  {
  }

  // ---------- several parents ----------

  /** Two states of an index that differ in the data of blocks alone. */
  ghost predicate SameShape(g: Graph, g': Graph) {
    g.Keys == g'.Keys && forall h :: h in g ==> g'[h] == g[h].(data := g'[h].data)
  }

  ghost predicate SameAnswers(anc: Ancestry, g: Graph, g': Graph) {
    forall a, b :: a in g && b in g ==> anc(g, a, b) == anc(g', a, b)
  }

  lemma ShapeBack(anc: Ancestry, g: Graph, g': Graph)
    requires SameShape(g, g') && SameAnswers(anc, g, g')
    ensures SameShape(g', g) && SameAnswers(anc, g', g)
  {
  }

  lemma PathShape(g: Graph, g': Graph, s: seq<Hash>)
    requires SameShape(g, g') && Path(g, s)
    ensures Path(g', s)
  {
    forall i | 0 <= i < |s| - 1
      ensures IsParent(g', s[i + 1], s[i])
    {
      assert IsParent(g, s[i + 1], s[i]);
    }
  }

  lemma MetShape(g: Graph, g': Graph, anc: Ancestry, parents: seq<Hash>, sp: Hash, x: Hash)
    requires SameShape(g, g') && SameAnswers(anc, g, g') && sp in g && Met(g, anc, parents, sp, x)
    ensures Met(g', anc, parents, sp, x)
  {
    var s :| Leads(g, anc, parents, sp, x, s);
    PathShape(g, g', s);
    assert Leads(g', anc, parents, sp, x, s);
  }

  lemma CollectedShape(g: Graph, g': Graph, anc: Ancestry, parents: seq<Hash>, sp: Hash, x: Hash)
    requires SameShape(g, g') && SameAnswers(anc, g, g') && sp in g
    ensures Collected(g, anc, parents, sp, x) <==> Collected(g', anc, parents, sp, x)
  {
    ShapeBack(anc, g, g');
    if Met(g, anc, parents, sp, x) {
      MetShape(g, g', anc, parents, sp, x);
      MetInPast(g, anc, parents, sp, x);
    } else if Met(g', anc, parents, sp, x) {
      MetShape(g', g, anc, parents, sp, x);
    }
  }

  lemma TooManyShape(g: Graph, g': Graph, anc: Ancestry, parents: seq<Hash>, sp: Hash)
    requires SameShape(g, g') && SameAnswers(anc, g, g') && sp in g && Known(g, parents)
    ensures TooMany(g, anc, parents, sp) <==> TooMany(g', anc, parents, sp)
  {
    forall x
      ensures Collected(g, anc, parents, sp, x) <==> Collected(g', anc, parents, sp, x)
    {
      CollectedShape(g, g', anc, parents, sp, x);
    }
    assert AllBehind(g, anc, parents, sp) <==> AllBehind(g', anc, parents, sp);
    hide Collected, NoRepeats, AllBehind, SameShape, SameAnswers;
    forall s
      ensures Overfull(g, anc, parents, sp, s) <==> Overfull(g', anc, parents, sp, s)
    {
    }
  }

  lemma {:induction false} AntiConeShape(g: Graph, g': Graph, anc: Ancestry, c: Hash, s: seq<Hash>)
    requires SameAnswers(anc, g, g') && c in g && forall x :: x in s ==> x in g
    ensures AntiCone(g, anc, c, s) == AntiCone(g', anc, c, s)
  {
    if s != [] {
      AntiConeShape(g, g', anc, c, s[..|s| - 1]);
    }
  }

  lemma {:induction false} ClassifiedShape(
    g: Graph, g': Graph, anc: Ancestry, k: nat, chain: seq<Hash>, mergeset: seq<Hash>)
    requires SameAnswers(anc, g, g') && forall x :: x in chain || x in mergeset ==> x in g
    ensures Classified(g, anc, k, chain, mergeset) == Classified(g', anc, k, chain, mergeset)
    ensures forall x :: x in Classified(g, anc, k, chain, mergeset).blues ==> x in g
  {
    hide AntiCone, SameAnswers;
    if mergeset != [] {
      var n := |mergeset| - 1;
      ClassifiedShape(g, g', anc, k, chain, mergeset[..n]);
      AntiConeShape(g, g', anc, mergeset[n], chain + Classified(g, anc, k, chain, mergeset[..n]).blues);
    }
  }

  lemma {:induction false} WorkShape(g: Graph, g': Graph, s: seq<Hash>)
    requires SameShape(g, g')
    ensures WorkOf(g, s) == WorkOf(g', s)
  {
    if s != [] {
      WorkShape(g, g', s[..|s| - 1]);
    }
  }

  lemma {:induction false} ChainIn(g: Graph, h: Hash, n: nat)
    ensures forall x :: x in Chain(g, h, n) ==> x in g
    decreases n
  {
    if n > 0 && h in g {
      ChainIn(g, g[h].data.selectedParent, n - 1);
    }
  }

  /** The mergeset, put in the order of other scores, is coloured the same. */
  ghost predicate ColoursStay(g: Graph, g': Graph, anc: Ancestry, k: nat, parents: seq<Hash>, d: GhostdagData) {
    exists mergeset :: Resorted(g, g', anc, k, parents, d, mergeset)
  }

  ghost predicate Resorted(
    g: Graph, g': Graph, anc: Ancestry, k: nat, parents: seq<Hash>, d: GhostdagData, mergeset: seq<Hash>)
  {
    && Ascending(g', mergeset)
    && (forall x :: x in mergeset <==> Collected(g, anc, parents, d.selectedParent, x))
    && Classes(d.blues, d.reds) == Classified(g, anc, k, Chain(g, d.selectedParent, 2 * k + 1), mergeset)
  }

  lemma ColoursShape(
    g: Graph, g': Graph, anc: Ancestry, k: nat, parents: seq<Hash>, d: GhostdagData, mergeset: seq<Hash>)
    requires SameShape(g, g') && SameAnswers(anc, g, g') && d.selectedParent in g
    requires Chain(g, d.selectedParent, 2 * k + 1) == Chain(g', d.selectedParent, 2 * k + 1)
    ensures Resorted(g, g', anc, k, parents, d, mergeset) <==> Colours(g', anc, k, parents, d, mergeset)
  {
    var sp := d.selectedParent;
    var chain := Chain(g, sp, 2 * k + 1);
    ChainIn(g, sp, 2 * k + 1);
    forall x
      ensures Collected(g, anc, parents, sp, x) <==> Collected(g', anc, parents, sp, x)
      ensures Collected(g, anc, parents, sp, x) ==> x in g
    {
      CollectedShape(g, g', anc, parents, sp, x);
      if Collected(g, anc, parents, sp, x) {
        MetInPast(g, anc, parents, sp, x);
      }
    }
    hide Collected, Chain, Classified, Ascending, SameAnswers, SameShape;
    if forall x :: x in mergeset <==> Collected(g, anc, parents, sp, x) {
      ClassifiedShape(g, g', anc, k, chain, mergeset);
    }
  }

  /**
   The data computed for a block is still right when other blocks have got data in the meantime,
   but nothing behind its selected parent has changed, if and only if the selected parent is
   still the best one and the mergeset, in the order of the later scores, is coloured the same.
   */
  lemma StillRightIff(g: Graph, g': Graph, anc: Ancestry, k: nat, parents: seq<Hash>, d: GhostdagData)
    requires Linked(g) && Linked(g') && SameShape(g, g') && SameAnswers(anc, g, g') && Known(g, parents)
    requires parents != []
    requires DataFor(g, anc, k, parents, d) && Agree(g, g', d.selectedParent)
    ensures DataFor(g', anc, k, parents, d)
       <==> IsBest(g', parents, d.selectedParent) && ColoursStay(g, g', anc, k, parents, d)
  {
    hide Linked, SameShape, SameAnswers, TooMany, Chain, WorkOf, Colours, ColoursStay, IsBest, Agree, Score, Known;
    StillParts(g, g', anc, k, parents, d);
    StillColours(g, g', anc, k, parents, d);
  }

  lemma StillColours(g: Graph, g': Graph, anc: Ancestry, k: nat, parents: seq<Hash>, d: GhostdagData)
    requires SameShape(g, g') && SameAnswers(anc, g, g') && d.selectedParent in g
    requires Chain(g, d.selectedParent, 2 * k + 1) == Chain(g', d.selectedParent, 2 * k + 1)
    ensures ColoursStay(g, g', anc, k, parents, d) <==> exists mergeset :: Colours(g', anc, k, parents, d, mergeset)
  {
    hide SameShape, SameAnswers, Chain, Colours, Resorted;
    if mergeset :| Resorted(g, g', anc, k, parents, d, mergeset) {
      ColoursShape(g, g', anc, k, parents, d, mergeset);
    } else if mergeset :| Colours(g', anc, k, parents, d, mergeset) {
      ColoursShape(g, g', anc, k, parents, d, mergeset);
    }
  }

  lemma StillParts(g: Graph, g': Graph, anc: Ancestry, k: nat, parents: seq<Hash>, d: GhostdagData)
    requires Linked(g) && Linked(g') && SameShape(g, g') && SameAnswers(anc, g, g') && Known(g, parents)
    requires Agree(g, g', d.selectedParent)
    ensures d.selectedParent in g && d.selectedParent in g' && g[d.selectedParent] == g'[d.selectedParent]
    ensures Score(g, d.selectedParent) == Score(g', d.selectedParent) && WorkOf(g, d.blues) == WorkOf(g', d.blues)
    ensures Chain(g, d.selectedParent, 2 * k + 1) == Chain(g', d.selectedParent, 2 * k + 1)
    ensures TooMany(g, anc, parents, d.selectedParent) <==> TooMany(g', anc, parents, d.selectedParent)
  {
    var sp := d.selectedParent;
    AgreeHere(g, g', sp);
    hide Linked, SameShape, SameAnswers, TooMany, Chain, WorkOf, Agree;
    ChainSame(g, g', sp, 2 * k + 1);
    TooManyShape(g, g', anc, parents, sp);
    WorkShape(g, g', d.blues);
  }

  // ---------- the answers of the search ----------

  lemma {:induction false} DownShape(g: Graph, g': Graph, b: Hash, h: nat)
    requires SameShape(g, g')
    ensures Down(g, b, h) == Down(g', b, h)
    decreases if b in g then g[b].height else 0
  {
    if b in g && g[b].height > h && g[b].pprev in g && g[g[b].pprev].height < g[b].height {
      DownShape(g, g', g[b].pprev, h);
    }
  }

  lemma {:induction false} SeeAllShape(g: Graph, g': Graph, a: Hash, ps: seq<Hash>, f: Frontier)
    requires SameShape(g, g') && a in g
    ensures a in g' && SeeAll(g, a, ps, f) == SeeAll(g', a, ps, f)
    decreases |ps|
  {
    if ps != [] && ps[0] != a {
      SeeAllShape(g, g', a, ps[1..], See(g, a, ps[0], f));
    }
  }

  lemma {:induction false} ExpandShape(g: Graph, g': Graph, a: Hash, f: Frontier, front: nat, fuel: nat)
    requires SameShape(g, g') && a in g
    ensures a in g' && AncestorSearch.Expand(g, a, f, front, fuel) == AncestorSearch.Expand(g', a, f, front, fuel)
    decreases fuel
  {
    hide SeeAll;
    if front < |f.queue| && |f.visited| <= MAX_ANCESTOR_BFS_NODES && fuel > 0 && f.queue[front] in g {
      var ps := g[f.queue[front]].Parents();
      SeeAllShape(g, g', a, ps, f);
      ExpandShape(g, g', a, SeeAll(g, a, ps, f), front + 1, fuel - 1);
    }
  }

  /** The search looks at links and heights alone. */
  lemma AnswersShape(g: Graph, g': Graph)
    requires SameShape(g, g')
    ensures SameAnswers(IsAncestor, g, g')
  {
    hide AncestorSearch.Expand, Down;
    forall a, b | a in g && b in g
      ensures IsAncestor(g, a, b) == IsAncestor(g', a, b)
    {
      DownShape(g, g', b, g[a].height);
      ExpandShape(g, g', a, Frontier(false, [b], {b}), 0, MAX_ANCESTOR_BFS_NODES + 1);
    }
  }

  // ---------- a late parent that does harm ----------

  /** A block without further parents whose header is known is always taken in. */
  lemma PlainStep(n: Node, anc: Ancestry, k: nat, hd: Header, n': Node)
    requires NodeOk(n) && Step(n, anc, k, BodyMsg(hd), n') && hd.extra == [] && hd.hash in n.index
    requires hd.hash !in n.taken
    requires n.index[hd.hash].dagParents == []
    ensures n' == Node(n.index[hd.hash := n.index[hd.hash].(data := PlainData(n.index, n.index[hd.hash].pprev))],
      n.taken + {hd.hash})
  {
    var g, h := n.index, hd.hash;
    var p := g[h].pprev;
    assert EntryLinked(g, h);
    NeverBlocked(g, anc, p);
    hide Blocked, Linked;
    assert g[h].Parents() == if p == NULL then [] else [p];
    var d :| Takes(g, anc, k, h, d, n, n');
    if p != NULL {
      OneParent(g, anc, k, p, d);
    }
  }

  /** Three blocks in a row, whose headers come first and whose bodies come as 1, 3, 2. */
  const H1 := Header(1, NULL, [], 1)
  const H2 := Header(2, 1, [], 1)
  const H3 := Header(3, 2, [], 1)
  const LATE := [HeaderMsg(H1), HeaderMsg(H2), HeaderMsg(H3), BodyMsg(H1), BodyMsg(H3), BodyMsg(H2)]

  lemma LateHeaders(ns: seq<Node>, anc: Ancestry, k: nat)
    requires Run(ns, anc, k, LATE)
    ensures ns[3] == Node(map[1 := Bare(NULL, [], 0), 2 := Bare(1, [], 1), 3 := Bare(2, [], 2)], {})
  {
    assert Step(ns[0], anc, k, LATE[0], ns[0 + 1]) && Step(ns[1], anc, k, LATE[1], ns[1 + 1]);
    assert Step(ns[2], anc, k, LATE[2], ns[2 + 1]);
    assert ns[1].index == map[1 := Bare(NULL, [], 0)];
    assert ns[2].index == map[1 := Bare(NULL, [], 0), 2 := Bare(1, [], 1)];
  }

  lemma LateFirst(ns: seq<Node>, anc: Ancestry, k: nat)
    requires Run(ns, anc, k, LATE)
    ensures ns[5].taken == {1, 3} && ns[5].index.Keys == {1, 2, 3} && ns[5].index[1] == Bare(NULL, [], 0)
    ensures ns[5].index[2] == Bare(1, [], 1)
    ensures ns[5].index[3] == Bare(2, [], 2).(data := GhostdagData(1, 2, [], [], 0))
  {
    LateHeaders(ns, anc, k);
    RunOk(ns, anc, k, LATE, 3);
    RunOk(ns, anc, k, LATE, 4);
    hide Step, NodeOk, DataFor;
    assert Step(ns[3], anc, k, LATE[3], ns[3 + 1]) && Step(ns[4], anc, k, LATE[4], ns[4 + 1]);
    PlainStep(ns[3], anc, k, H1, ns[4]);
    PlainStep(ns[4], anc, k, H3, ns[5]);
  }

  /**
   In that order every block is taken in, but the third with score one, since its parent had none
   yet, and the right score two is never computed.
   */
  lemma LateBody(ns: seq<Node>, anc: Ancestry, k: nat)
    requires Run(ns, anc, k, LATE)
    ensures ns[6].taken == {1, 2, 3} && 3 in ns[6].index && 2 in ns[6].index
    ensures Score(ns[6].index, 2) == 1 && Score(ns[6].index, 3) == 1
    ensures !DataFor(ns[6].index, anc, k, ns[6].index[3].Parents(), ns[6].index[3].data)
  {
    LateFirst(ns, anc, k);
    RunOk(ns, anc, k, LATE, 5);
    hide Step, NodeOk, DataFor;
    assert Step(ns[5], anc, k, LATE[5], ns[5 + 1]);
    hide Run;
    PlainStep(ns[5], anc, k, H2, ns[6]);
    var g := ns[6].index;
    assert g[3].Parents() == [2];
    if DataFor(g, anc, k, [2], g[3].data) {
      OneParent(g, anc, k, 2, g[3].data);
    }
  }

  // ---------- a late parent that does no harm ----------

  /** A chain 1, 2, 3, a side block 4 on block 1, and block 5 on block 3 with block 4 as a further parent. */
  const S3 := Header(3, 2, [], 1)
  const S4 := Header(4, 1, [], 1)
  const S5 := Header(5, 3, [4], 1)
  const HARMLESS := [HeaderMsg(H1), HeaderMsg(H2), HeaderMsg(S3), HeaderMsg(S4), HeaderMsg(S5),
                     BodyMsg(H1), BodyMsg(H2), BodyMsg(S3), BodyMsg(S5), BodyMsg(S4)]

  const SIDE_DATA := GhostdagData(1, 1, [], [], 0)
  const CHAIN_DATA := GhostdagData(2, 2, [], [], 0)

  /** The index of these five blocks with the data of the last four. */
  function Five(d2: GhostdagData, d3: GhostdagData, d4: GhostdagData, d5: GhostdagData): Graph {
    map[1 := Bare(NULL, [], 0), 2 := Bare(1, [], 1).(data := d2), 3 := Bare(2, [], 2).(data := d3),
        4 := Bare(1, [], 1).(data := d4), 5 := Bare(3, [4], 3).(data := d5)]
  }

  /** With the data of the chain computed. */
  function FiveBlocks(d4: GhostdagData, d5: GhostdagData): Graph {
    Five(SIDE_DATA, CHAIN_DATA, d4, d5)
  }

  lemma {:induction false} FromSide(d4: GhostdagData, d5: GhostdagData, s: seq<Hash>, i: nat)
    requires Path(FiveBlocks(d4, d5), s) && s[0] == 4 && i < |s|
    ensures s[i] == 4 || s[i] == 1
  {
    if i > 0 {
      FromSide(d4, d5, s, i - 1);
      assert IsParent(FiveBlocks(d4, d5), s[i - 1 + 1], s[i - 1]);
    }
  }

  lemma FirstBehindThird(d4: GhostdagData, d5: GhostdagData)
    ensures IsAncestor(FiveBlocks(d4, d5), 1, 3)
  {
    var g := FiveBlocks(d4, d5);
    hide AncestorSearch.Expand;
    assert Down(g, 1, 0) == 1 && Down(g, 2, 0) == 1 && Down(g, 3, 0) == 1;
  }

  /** Whatever its score is, block 4 is all there is to merge. */
  lemma SideMerged(d4: GhostdagData, d5: GhostdagData, x: Hash)
    ensures Collected(FiveBlocks(d4, d5), IsAncestor, [3, 4], 3, x) ==> x == 4
  {
    var g := FiveBlocks(d4, d5);
    FirstBehindThird(d4, d5);
    hide FiveBlocks, IsAncestor;
    if Collected(g, IsAncestor, [3, 4], 3, x) {
      var s :| Leads(g, IsAncestor, [3, 4], 3, x, s);
      FromSide(d4, d5, s, |s| - 1);
    }
  }

  lemma SideNotTooMany(d4: GhostdagData, d5: GhostdagData)
    ensures !TooMany(FiveBlocks(d4, d5), IsAncestor, [3, 4], 3)
  {
    var g := FiveBlocks(d4, d5);
    forall s | Overfull(g, IsAncestor, [3, 4], 3, s)
      ensures false
    {
      forall x | x in s
        ensures x in [4]
      {
        SideMerged(d4, d5, x);
      }
      hide Collected;
      Pigeonhole(s, [4]);
    }
  }

  lemma SideBest(d4: GhostdagData, d5: GhostdagData, p: Hash)
    requires d4.blueScore < 2
    ensures IsBest(FiveBlocks(d4, d5), [3, 4], p) <==> p == 3
  {
    assert [3, 4][0] in [3, 4] && [3, 4][1] in [3, 4];
  }

  lemma SideNotBlocked(d4: GhostdagData, d5: GhostdagData)
    requires d4.blueScore < 2
    ensures !Blocked(FiveBlocks(d4, d5), IsAncestor, [3, 4])
  {
    hide TooMany, IsBest, FiveBlocks;
    forall p | IsBest(FiveBlocks(d4, d5), [3, 4], p)
      ensures !TooMany(FiveBlocks(d4, d5), IsAncestor, [3, 4], p)
    {
      SideBest(d4, d5, p);
      SideNotTooMany(d4, d5);
    }
  }

  lemma FiveLinked(d4: GhostdagData, d5: GhostdagData)
    requires d4.selectedParent == NULL || d4.selectedParent == 1
    requires d5.selectedParent == NULL || d5.selectedParent == 3
    ensures Linked(FiveBlocks(d4, d5))
  {
    var g := FiveBlocks(d4, d5);
    forall h | h in g
      ensures EntryLinked(g, h)
    {
    }
  }

  /** The past of block 3 does not depend on blocks 4 and 5. */
  lemma {:induction false} FirstThree(d4: GhostdagData, d5: GhostdagData, s: seq<Hash>, i: nat)
    requires Path(FiveBlocks(d4, d5), s) && s[0] == 3 && i < |s|
    ensures 1 <= s[i] <= 3
  {
    if i > 0 {
      FirstThree(d4, d5, s, i - 1);
      assert IsParent(FiveBlocks(d4, d5), s[i - 1 + 1], s[i - 1]);
    }
  }

  lemma FiveAgree(d4: GhostdagData, d5: GhostdagData, e4: GhostdagData, e5: GhostdagData)
    ensures Agree(FiveBlocks(d4, d5), FiveBlocks(e4, e5), 3)
  {
    var g, g' := FiveBlocks(d4, d5), FiveBlocks(e4, e5);
    forall x | Reaches(g, x, 3)
      ensures x in g && x in g' && g'[x] == g[x]
    {
      var s :| Joins(g, s, 3, x);
      FirstThree(d4, d5, s, |s| - 1);
    }
  }

  /** A list of blocks that are all the same is in any order. */
  lemma OneAscends(g: Graph, g': Graph, s: seq<Hash>, x: Hash)
    requires Ascending(g, s) && forall y :: y in s ==> y == x
    ensures Ascending(g', s)
  {
    assert forall i :: 0 <= i < |s| ==> s[i] in s;
  }

  lemma FiveShape(d4: GhostdagData, d5: GhostdagData, e4: GhostdagData, e5: GhostdagData)
    ensures SameShape(FiveBlocks(d4, d5), FiveBlocks(e4, e5)) && Known(FiveBlocks(d4, d5), [3, 4])
  {
  }

  lemma SideColours(k: nat, d: GhostdagData)
    requires DataFor(FiveBlocks(NO_DATA, NO_DATA), IsAncestor, k, [3, 4], d) && d.selectedParent == 3
    ensures ColoursStay(FiveBlocks(NO_DATA, NO_DATA), FiveBlocks(SIDE_DATA, d), IsAncestor, k, [3, 4], d)
  {
    var g, g' := FiveBlocks(NO_DATA, NO_DATA), FiveBlocks(SIDE_DATA, d);
    hide FiveBlocks, Ascending, Collected, Classified, Chain, IsBest, TooMany;
    var m :| Colours(g, IsAncestor, k, [3, 4], d, m);
    forall y | y in m
      ensures y == 4
    {
      SideMerged(NO_DATA, NO_DATA, y);
    }
    OneAscends(g, g', m, 4);
    assert Resorted(g, g', IsAncestor, k, [3, 4], d, m);
  }

  /** The data of block 5 is the same whether block 4 has its score yet or not. */
  lemma SideScoreIdle(k: nat, d: GhostdagData)
    requires DataFor(FiveBlocks(NO_DATA, NO_DATA), IsAncestor, k, [3, 4], d)
    ensures DataFor(FiveBlocks(SIDE_DATA, d), IsAncestor, k, [3, 4], d) && d.selectedParent == 3
  {
    hide FiveBlocks, DataFor, SameShape, SameAnswers, Linked, Agree, IsBest, Known, ColoursStay;
    var g, g' := FiveBlocks(NO_DATA, NO_DATA), FiveBlocks(SIDE_DATA, d);
    assert 3 == [3, 4][0];
    DataHasBest(g, IsAncestor, k, [3, 4], d, 3);
    SideBest(NO_DATA, NO_DATA, d.selectedParent);
    SideBest(SIDE_DATA, d, 3);
    FiveLinked(NO_DATA, NO_DATA);
    FiveLinked(SIDE_DATA, d);
    FiveAgree(NO_DATA, NO_DATA, SIDE_DATA, d);
    FiveShape(NO_DATA, NO_DATA, SIDE_DATA, d);
    AnswersShape(g, g');
    SideColours(k, d);
    StillRightIff(g, g', IsAncestor, k, [3, 4], d);
  }

  lemma HarmlessHeaders(ns: seq<Node>, anc: Ancestry, k: nat)
    requires Run(ns, anc, k, HARMLESS)
    ensures ns[5] == Node(Five(NO_DATA, NO_DATA, NO_DATA, NO_DATA), {})
  {
    hide BodyStep;
    var g3 := map[1 := Bare(NULL, [], 0), 2 := Bare(1, [], 1), 3 := Bare(2, [], 2)];
    assert Step(ns[0], anc, k, HARMLESS[0], ns[0 + 1]) && Step(ns[1], anc, k, HARMLESS[1], ns[1 + 1]);
    assert Step(ns[2], anc, k, HARMLESS[2], ns[2 + 1]) && Step(ns[3], anc, k, HARMLESS[3], ns[3 + 1]);
    assert Step(ns[4], anc, k, HARMLESS[4], ns[4 + 1]);
    assert ns[1].index == map[1 := Bare(NULL, [], 0)];
    assert ns[2].index == map[1 := Bare(NULL, [], 0), 2 := Bare(1, [], 1)];
    assert ns[3].index == g3;
    assert ns[4].index == g3[4 := Bare(1, [], 1)];
    assert KnownOf(ns[4].index, [4]) == [4] && HeaderOk(ns[4].index, S5);
  }

  lemma FiveEntry(d2: GhostdagData, d3: GhostdagData, d4: GhostdagData, d5: GhostdagData, d: GhostdagData)
    ensures var g := Five(d2, d3, d4, d5);
      && g[1 := g[1].(data := NO_DATA)] == g && g[2 := g[2].(data := d)] == Five(d, d3, d4, d5)
      && g[3 := g[3].(data := d)] == Five(d2, d, d4, d5) && g[4 := g[4].(data := d)] == Five(d2, d3, d, d5)
      && g[5 := g[5].(data := d)] == Five(d2, d3, d4, d)
  {
  }

  /** The index once the body of a block without further parents has come. */
  function PlainFive(h: Hash, d2: GhostdagData, d3: GhostdagData, d4: GhostdagData, d5: GhostdagData): Graph {
    var g := Five(d2, d3, d4, d5);
    if h == 1 then g
    else if h == 2 then Five(PlainData(g, 1), d3, d4, d5)
    else if h == 3 then Five(d2, PlainData(g, 2), d4, d5)
    else Five(d2, d3, PlainData(g, 1), d5)
  }

  lemma PlainBody(
    n: Node, anc: Ancestry, k: nat, hd: Header, n': Node,
    d2: GhostdagData, d3: GhostdagData, d4: GhostdagData, d5: GhostdagData)
    requires NodeOk(n) && n.index == Five(d2, d3, d4, d5) && Step(n, anc, k, BodyMsg(hd), n')
    requires (hd == H1 || hd == H2 || hd == S3 || hd == S4) && hd.hash !in n.taken
    ensures n' == Node(PlainFive(hd.hash, d2, d3, d4, d5), n.taken + {hd.hash})
  {
    hide Step, NodeOk, PlainData;
    PlainStep(n, anc, k, hd, n');
    var d := PlainData(n.index, n.index[hd.hash].pprev);
    assert hd.hash == 1 ==> d == NO_DATA by {
      NoParentData(d2, d3, d4, d5);
    }
    FiveEntry(d2, d3, d4, d5, d);
  }

  lemma NoParentData(d2: GhostdagData, d3: GhostdagData, d4: GhostdagData, d5: GhostdagData)
    ensures PlainData(Five(d2, d3, d4, d5), NULL) == NO_DATA
  {
  }

  lemma PlainFives()
    ensures PlainData(Five(NO_DATA, NO_DATA, NO_DATA, NO_DATA), 1) == SIDE_DATA
    ensures PlainData(Five(SIDE_DATA, NO_DATA, NO_DATA, NO_DATA), 2) == CHAIN_DATA
    ensures forall d :: PlainData(FiveBlocks(NO_DATA, d), 1) == SIDE_DATA
  {
  }

  lemma HarmlessChain(ns: seq<Node>, anc: Ancestry, k: nat)
    requires Run(ns, anc, k, HARMLESS)
    ensures ns[8] == Node(FiveBlocks(NO_DATA, NO_DATA), {1, 2, 3})
  {
    hide Step, NodeOk, Five, PlainData, Run;
    HarmlessHeaders(ns, anc, k);
    PlainFives();
    HarmlessStep(ns, anc, k, 5);
    PlainBody(ns[5], anc, k, H1, ns[6], NO_DATA, NO_DATA, NO_DATA, NO_DATA);
    HarmlessStep(ns, anc, k, 6);
    PlainBody(ns[6], anc, k, H2, ns[7], NO_DATA, NO_DATA, NO_DATA, NO_DATA);
    HarmlessStep(ns, anc, k, 7);
    PlainBody(ns[7], anc, k, S3, ns[8], SIDE_DATA, NO_DATA, NO_DATA, NO_DATA);
  }

  lemma HarmlessStep(ns: seq<Node>, anc: Ancestry, k: nat, i: nat)
    requires Run(ns, anc, k, HARMLESS) && i < 10
    ensures |ns| == 11 && NodeOk(ns[i]) && Step(ns[i], anc, k, HARMLESS[i], ns[i + 1])
  {
    RunOk(ns, anc, k, HARMLESS, i);
  }

  lemma SideTaken(n: Node, k: nat, n': Node) returns (d: GhostdagData)
    requires n == Node(FiveBlocks(NO_DATA, NO_DATA), {1, 2, 3}) && Step(n, IsAncestor, k, BodyMsg(S5), n')
    ensures DataFor(FiveBlocks(NO_DATA, NO_DATA), IsAncestor, k, [3, 4], d)
    ensures n' == Node(FiveBlocks(NO_DATA, d), {1, 2, 3, 5})
  {
    SideNotBlocked(NO_DATA, NO_DATA);
    var g := FiveBlocks(NO_DATA, NO_DATA);
    assert g[5].Parents() == [3, 4];
    hide Blocked, DataFor;
    d :| Takes(g, IsAncestor, k, 5, d, n, n');
    FiveEntry(SIDE_DATA, CHAIN_DATA, NO_DATA, NO_DATA, d);
  }

  lemma HarmlessEnd(ns: seq<Node>, k: nat) returns (d: GhostdagData)
    requires Run(ns, IsAncestor, k, HARMLESS)
    ensures DataFor(FiveBlocks(NO_DATA, NO_DATA), IsAncestor, k, [3, 4], d)
    ensures ns[9] == Node(FiveBlocks(NO_DATA, d), {1, 2, 3, 5})
    ensures ns[10] == Node(FiveBlocks(SIDE_DATA, d), {1, 2, 3, 4, 5})
  {
    hide Step, NodeOk, DataFor, Five, PlainData, Run;
    HarmlessChain(ns, IsAncestor, k);
    HarmlessStep(ns, IsAncestor, k, 8);
    HarmlessStep(ns, IsAncestor, k, 9);
    d := SideTaken(ns[8], k, ns[9]);
    PlainFives();
    PlainBody(ns[9], IsAncestor, k, S4, ns[10], SIDE_DATA, CHAIN_DATA, NO_DATA, d);
  }

  /**
   With the bodies 1, 2, 3, 5, 4 block 5 is taken in before its parent 4, and still every block
   has the data its parents call for in the end, for every K and the code's own search.
   */
  lemma LateHarmless(ns: seq<Node>, k: nat)
    requires Run(ns, IsAncestor, k, HARMLESS)
    ensures !TimelyThroughout(ns, HARMLESS) && ns[10].taken == {1, 2, 3, 4, 5} && Score(ns[10].index, 4) == 1
    ensures DataRight(ns[10], IsAncestor, k)
  {
    hide Step, NodeOk, DataFor, Five, Run, DataRight;
    HarmlessStep(ns, IsAncestor, k, 8);
    var d := HarmlessEnd(ns, k);
    HarmlessChain(ns, IsAncestor, k);
    SideScoreIdle(k, d);
    FiveRight(ns[10], k, d);
    FiveLate(d);
    assert !Timely(ns[8], HARMLESS[8], ns[8 + 1]);
  }

  lemma FiveLate(d: GhostdagData)
    ensures 5 in FiveBlocks(NO_DATA, d) && 4 in FiveBlocks(NO_DATA, d)[5].Parents()
    ensures Score(FiveBlocks(SIDE_DATA, d), 4) == 1
  {
    assert FiveBlocks(NO_DATA, d)[5].Parents()[1] == 4;
  }

  lemma FiveRight(n: Node, k: nat, d: GhostdagData)
    requires n.index == FiveBlocks(SIDE_DATA, d) && DataFor(n.index, IsAncestor, k, [3, 4], d)
    ensures DataRight(n, IsAncestor, k)
  {
    hide DataFor, PlainData;
    var g := n.index;
    FivePlain(d);
    NoParentsData(g, IsAncestor, k);
    PlainIff(g, IsAncestor, k, 1, SIDE_DATA);
    PlainIff(g, IsAncestor, k, 2, CHAIN_DATA);
    forall h | h in g
      ensures DataFor(g, IsAncestor, k, g[h].Parents(), g[h].data)
    {
      FiveParents(d, h);
    }
  }

  lemma FivePlain(d: GhostdagData)
    ensures var g := FiveBlocks(SIDE_DATA, d); PlainData(g, 1) == SIDE_DATA && PlainData(g, 2) == CHAIN_DATA
  {
  }

  lemma FiveParents(d: GhostdagData, h: Hash)
    requires h in FiveBlocks(SIDE_DATA, d)
    ensures var e := FiveBlocks(SIDE_DATA, d)[h];
      || (e.Parents() == [] && e.data == NO_DATA) || (e.Parents() == [1] && e.data == SIDE_DATA)
      || (e.Parents() == [2] && e.data == CHAIN_DATA) || (e.Parents() == [3, 4] && e.data == d)
  {
  }

  lemma NoParentsData(g: Graph, anc: Ancestry, k: nat)
    ensures DataFor(g, anc, k, [], NO_DATA)
  {
  }
}
