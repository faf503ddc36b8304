/**
 Nodes that take blocks in after their parents agree on the data of every block they both
 have. Nodes to which the same blocks are delivered with parents first agree on everything
 about these blocks: which are taken in, which are turned away, and all their data.
 */
module DagDelivery {
  import opened Dag
  import opened Ghostdag
  import opened DagAgreement
  import opened AncestorSearch
  import opened DagNode
  import opened DagRuns

  // ---------- agreement ----------

  /** Blocks that both nodes have taken in have the same links and work. */
  ghost predicate SameBlocks(n1: Node, n2: Node) {
    forall h :: h in n1.taken && h in n2.taken && h in n1.index && h in n2.index ==>
      var e1, e2 := n1.index[h], n2.index[h];
      e1.pprev == e2.pprev && e1.dagParents == e2.dagParents && e1.work == e2.work
  }

  lemma AgreeTrans(g1: Graph, g2: Graph, g3: Graph, b: Hash)
    requires Linked(g1) && Agree(g1, g2, b) && Agree(g2, g3, b)
    ensures Agree(g1, g3, b)
  {
    forall x | Reaches(g1, x, b)
      ensures x in g1 && x in g3 && g3[x] == g1[x]
    {
      ReachesSame(g1, g2, x, b);
    }
  }

  lemma AgreeFromParents(g1: Graph, g2: Graph, h: Hash)
    requires h in g1 && h in g2 && g1[h] == g2[h] && AgreeAll(g1, g2, g1[h].Parents())
    ensures Agree(g1, g2, h)
  {
    forall x | Reaches(g1, x, h)
      ensures x in g1 && x in g2 && g2[x] == g1[x]
    {
      if x != h {
        var p := ParentOnPath(g1, x, h);
        AgreeAt(g1, g2, g1[h].Parents(), p);
        AgreeBelow(g1, g2, x, p);
        AgreeHere(g1, g2, x);
      }
    }
  }

  lemma SameHeight(g1: Graph, g2: Graph, h: Hash)
    requires Linked(g1) && Linked(g2) && h in g1 && h in g2 && g1[h].pprev == g2[h].pprev
    requires AgreeAll(g1, g2, g1[h].Parents())
    ensures g1[h].height == g2[h].height
  {
    assert EntryLinked(g1, h) && EntryLinked(g2, h);
    if g1[h].pprev != NULL {
      AgreeAt(g1, g2, g1[h].Parents(), g1[h].pprev);
    }
  }

  /** Agreement on the parents gives agreement on the block. */
  lemma AgreeUp(n1: Node, n2: Node, anc: Ancestry, k: nat, h: Hash)
    requires PastOnly(anc) && NodeOk(n1) && NodeOk(n2) && SameBlocks(n1, n2)
    requires h in n1.taken && h in n2.taken && h in n1.index && h in n2.index && RightAt(n1, anc, k, h)
    requires RightAt(n2, anc, k, h)
    requires AgreeAll(n1.index, n2.index, n1.index[h].Parents())
    ensures n1.index[h] == n2.index[h] && Agree(n1.index, n2.index, h)
  {
    NodeLinked(n1);
    NodeLinked(n2);
    hide PastOnly, DataFor, Linked, AgreeAll, NodeOk;
    var e1, e2 := n1.index[h], n2.index[h];
    assert e1.Parents() == e2.Parents();
    Transfer(n1.index, n2.index, anc, k, e1.Parents(), e1.data);
    DataUnique(n2.index, anc, k, e2.Parents(), e1.data, e2.data);
    SameHeight(n1.index, n2.index, h);
    AgreeFromParents(n1.index, n2.index, h);
  }

  /** Two nodes whose data is right agree on the data, and the past, of every block both have taken in. */
  lemma {:induction false} Agreement(n1: Node, n2: Node, anc: Ancestry, k: nat, h: Hash)
    requires PastOnly(anc) && NodeOk(n1) && NodeOk(n2) && Right(n1, anc, k) && Right(n2, anc, k) && SameBlocks(n1, n2)
    requires h in n1.taken && h in n2.taken
    ensures h in n1.index && h in n2.index && n1.index[h] == n2.index[h] && Agree(n1.index, n2.index, h)
    decreases Score(n1.index, h)
  {
    TakenKnown(n1, h);
    TakenKnown(n2, h);
    assert RightAt(n1, anc, k, h) && RightAt(n2, anc, k, h);
    hide PastOnly, DataFor, Linked, Agree, NodeOk, Right;
    ParentsScore(n1, anc, k, h);
    var parents := n1.index[h].Parents();
    assert n2.index[h].Parents() == parents;
    forall i | 0 <= i < |parents|
      ensures Agree(n1.index, n2.index, parents[i])
    {
      assert parents[i] in parents;
      Agreement(n1, n2, anc, k, parents[i]);
    }
    AgreeUp(n1, n2, anc, k, h);
  }

  // ---------- where blocks come from ----------

  predicate ProperHeader(hd: Header) {
    hd.hash != NULL && (hd.hash == GENESIS <==> hd.prev == NULL)
  }

  /** A hash stands for one header. */
  ghost predicate Proper(msgs: seq<Message>) {
    && (forall m :: m in msgs ==> ProperHeader(m.hd))
    && (forall m, m' :: m in msgs && m' in msgs && m.hd.hash == m'.hd.hash ==> m.hd == m'.hd)
  }

  /** An entry has the links of its header, as far as they are known. */
  predicate FromHeader(e: Block, hd: Header) {
    && e.pprev == hd.prev && e.work == hd.work && |e.dagParents| <= |hd.extra|
    && (forall p :: p in e.dagParents ==> p in hd.extra)
    && (|e.dagParents| == |hd.extra| ==> e.dagParents == hd.extra)
  }

  ghost predicate OriginAt(n: Node, h: Hash, m: Message)
    requires h in n.index
  {
    m.hd.hash == h && FromHeader(n.index[h], m.hd) && (h in n.taken ==> n.index[h].dagParents == m.hd.extra)
  }

  ghost predicate Origins(n: Node, msgs: seq<Message>) {
    && (forall h :: h in n.index ==> exists m :: m in msgs && OriginAt(n, h, m))
    && (forall h :: h in n.taken ==> exists m :: m in msgs && m.BodyMsg? && m.hd.hash == h)
  }

  lemma NewFromHeader(g: Graph, hd: Header)
    requires ProperHeader(hd) && HeaderOk(g, hd) && NULL !in g
    ensures FromHeader(NewEntry(g, hd), hd)
  {
    KnownOfIn(g, hd.extra);
  }

  lemma FilledFromHeader(g: Graph, hd: Header)
    requires hd.hash in g && FromHeader(g[hd.hash], hd)
    ensures FromHeader(Filled(g, hd)[hd.hash], hd)
  {
    ResolvedIn(g, hd.extra);
  }

  lemma StepEntries(n: Node, anc: Ancestry, k: nat, m: Message, n': Node, h: Hash)
    requires NodeOk(n) && Step(n, anc, k, m, n') && ProperHeader(m.hd) && h in n'.index
    ensures h != m.hd.hash ==> h in n.index && n'.index[h] == n.index[h] && (h in n'.taken <==> h in n.taken)
    ensures h == m.hd.hash && (h in n.index ==> FromHeader(n.index[h], m.hd)) ==> FromHeader(n'.index[h], m.hd)
    ensures h == m.hd.hash && h in n'.taken && h !in n.taken && (h in n.index ==> FromHeader(n.index[h], m.hd)) ==>
      n'.index[h].dagParents == m.hd.extra
  {
    hide DataFor, Blocked, HeaderOk;
    var hd := m.hd;
    var g1 := Announced(n.index, hd);
    if hd.hash !in n.index && HeaderOk(n.index, hd) {
      NewFromHeader(n.index, hd);
    }
    hide NewEntry;
    if m.BodyMsg? && hd.hash in g1 && hd.hash !in n.taken {
      FilledFrame(g1, hd);
      if FromHeader(g1[hd.hash], hd) {
        FilledFromHeader(g1, hd);
      }
      hide Filled, FromHeader;
      HeaderLength(Filled(g1, hd)[hd.hash], hd);
      var g := Filled(g1, hd);
      if n' != n.(index := g) {
        var d :| Takes(g, anc, k, hd.hash, d, n, n');
        DataKeepsHeader(g[hd.hash], d, hd);
      }
    }
  }

  lemma HeaderLength(e: Block, hd: Header)
    ensures FromHeader(e, hd) && |e.dagParents| >= |hd.extra| ==> e.dagParents == hd.extra
  {
  }

  lemma DataKeepsHeader(e: Block, d: GhostdagData, hd: Header)
    ensures FromHeader(e.(data := d), hd) <==> FromHeader(e, hd)
  {
  }

  lemma OriginsStep(n: Node, anc: Ancestry, k: nat, m: Message, n': Node, msgs: seq<Message>)
    requires NodeOk(n) && Step(n, anc, k, m, n') && Proper(msgs) && m in msgs && Origins(n, msgs)
    ensures Origins(n', msgs)
  {
    StepOk(n, anc, k, m, n');
    hide Step, NodeOk, FromHeader;
    forall h | h in n'.index
      ensures exists m' :: m' in msgs && OriginAt(n', h, m')
    {
      StepEntries(n, anc, k, m, n', h);
      if h == m.hd.hash {
        if h in n.index {
          var m0 :| m0 in msgs && OriginAt(n, h, m0);
          assert m0.hd == m.hd;
        }
        assert OriginAt(n', h, m);
      } else {
        var m0 :| m0 in msgs && OriginAt(n, h, m0);
        assert OriginAt(n', h, m0);
      }
    }
    forall h | h in n'.taken
      ensures exists m' :: m' in msgs && m'.BodyMsg? && m'.hd.hash == h
    {
      if h !in n.taken {
        TookBody(n, anc, k, m, n');
      }
    }
  }

  lemma TookBody(n: Node, anc: Ancestry, k: nat, m: Message, n': Node)
    requires NodeOk(n) && Step(n, anc, k, m, n') && n'.taken != n.taken
    ensures m.BodyMsg? && m.hd.hash !in n.taken && n'.taken == n.taken + {m.hd.hash}
  {
    var g := TookIn(n, anc, k, m, n');
  }

  lemma {:induction false} RunOrigins(ns: seq<Node>, anc: Ancestry, k: nat, msgs: seq<Message>, i: nat)
    requires Run(ns, anc, k, msgs) && Proper(msgs) && i < |ns|
    ensures Origins(ns[i], msgs)
  {
    hide Step, Proper;
    if i > 0 {
      RunOrigins(ns, anc, k, msgs, i - 1);
      RunOk(ns, anc, k, msgs, i - 1);
      assert Step(ns[i - 1], anc, k, msgs[i - 1], ns[i - 1 + 1]);
      OriginsStep(ns[i - 1], anc, k, msgs[i - 1], ns[i], msgs);
    }
  }

  /** Blocks of two nodes fed with messages in which a hash stands for one header are the same blocks. */
  lemma SameOrigins(n1: Node, n2: Node, msgs1: seq<Message>, msgs2: seq<Message>)
    requires Origins(n1, msgs1) && Origins(n2, msgs2) && Proper(msgs1 + msgs2)
    ensures SameBlocks(n1, n2)
  {
    forall h | h in n1.taken && h in n2.taken && h in n1.index && h in n2.index
      ensures var e1, e2 := n1.index[h], n2.index[h];
        e1.pprev == e2.pprev && e1.dagParents == e2.dagParents && e1.work == e2.work
    {
      var m1 :| m1 in msgs1 && OriginAt(n1, h, m1);
      var m2 :| m2 in msgs2 && OriginAt(n2, h, m2);
      assert m1 in msgs1 + msgs2 && m2 in msgs1 + msgs2;
    }
  }

  /** Any two timely runs end with the same data for every block both have taken in. */
  lemma RunsAgree(
    ns1: seq<Node>, ns2: seq<Node>, anc: Ancestry, k: nat, msgs1: seq<Message>, msgs2: seq<Message>, h: Hash)
    requires PastOnly(anc) && Run(ns1, anc, k, msgs1) && Run(ns2, anc, k, msgs2) && Proper(msgs1 + msgs2)
    requires TimelyThroughout(ns1, msgs1) && TimelyThroughout(ns2, msgs2)
    requires h in ns1[|msgs1|].taken && h in ns2[|msgs2|].taken
    ensures h in ns1[|msgs1|].index && h in ns2[|msgs2|].index
    ensures ns1[|msgs1|].index[h] == ns2[|msgs2|].index[h] && Agree(ns1[|msgs1|].index, ns2[|msgs2|].index, h)
  {
    ProperParts(msgs1, msgs2);
    hide Run, PastOnly, TimelyThroughout, Proper, Right, NodeOk, Agree, Origins, SameBlocks;
    RunFacts(ns1, anc, k, msgs1);
    RunFacts(ns2, anc, k, msgs2);
    SameOrigins(ns1[|msgs1|], ns2[|msgs2|], msgs1, msgs2);
    Agreement(ns1[|msgs1|], ns2[|msgs2|], anc, k, h);
  }

  lemma ProperParts(msgs1: seq<Message>, msgs2: seq<Message>)
    requires Proper(msgs1 + msgs2)
    ensures Proper(msgs1) && Proper(msgs2) && Proper(msgs2 + msgs1)
  {
    assert forall m :: m in msgs1 || m in msgs2 ==> m in msgs1 + msgs2;
    assert forall m :: m in msgs2 + msgs1 ==> m in msgs1 + msgs2;
  }

  lemma RunFacts(ns: seq<Node>, anc: Ancestry, k: nat, msgs: seq<Message>)
    requires PastOnly(anc) && Run(ns, anc, k, msgs) && Proper(msgs) && TimelyThroughout(ns, msgs)
    ensures |ns| == |msgs| + 1 && NodeOk(ns[|msgs|]) && Right(ns[|msgs|], anc, k) && Origins(ns[|msgs|], msgs)
  {
    RunOk(ns, anc, k, msgs, |msgs|);
    RunOrigins(ns, anc, k, msgs, |msgs|);
    TimelyRight(ns, anc, k, msgs, |msgs|);
  }

  // ---------- delivery ----------

  /** A parent named by a header. */
  predicate Names(hd: Header, q: Hash) {
    q != NULL && (q == hd.prev || q in hd.extra)
  }

  /** No message mentions a block before the bodies of all its parents have come. */
  ghost predicate ParentsFirst(msgs: seq<Message>) {
    forall i, q :: 0 <= i < |msgs| && Names(msgs[i].hd, q) ==> exists j :: 0 <= j < i && BodyOf(msgs[j], q)
  }

  predicate BodyOf(m: Message, q: Hash) {
    m.BodyMsg? && m.hd.hash == q
  }

  /** The body of a block comes once. */
  ghost predicate BodiesOnce(msgs: seq<Message>) {
    forall i, j, q :: 0 <= i < |msgs| && 0 <= j < |msgs| && BodyOf(msgs[i], q) && BodyOf(msgs[j], q) ==> i == j
  }

  /** The message that made the node take a block in. */
  lemma {:induction false} TakenWhen(
    ns: seq<Node>, anc: Ancestry, k: nat, msgs: seq<Message>, q: Hash, i: nat) returns (j: nat)
    requires Run(ns, anc, k, msgs) && i < |ns| && q in ns[i].taken
    ensures j < i && BodyOf(msgs[j], q) && q in ns[j + 1].taken
  {
    hide Step;
    assert i > 0;
    assert Step(ns[i - 1], anc, k, msgs[i - 1], ns[i - 1 + 1]);
    RunOk(ns, anc, k, msgs, i - 1);
    if q in ns[i - 1].taken {
      j := TakenWhen(ns, anc, k, msgs, q, i - 1);
    } else {
      TookBody(ns[i - 1], anc, k, msgs[i - 1], ns[i]);
      j := i - 1;
    }
  }

  /** With parents first, a parent that is ever taken in is there whenever its child is mentioned. */
  lemma ParentReady(ns: seq<Node>, anc: Ancestry, k: nat, msgs: seq<Message>, i: nat, q: Hash)
    requires Run(ns, anc, k, msgs) && ParentsFirst(msgs) && BodiesOnce(msgs)
    requires i < |msgs| && Names(msgs[i].hd, q) && q in ns[|msgs|].taken
    ensures q in ns[i].taken
  {
    hide Step, Extends;
    var j := TakenWhen(ns, anc, k, msgs, q, |msgs|);
    var j' :| 0 <= j' < i && BodyOf(msgs[j'], q);
    assert j == j';
    RunExtends(ns, anc, k, msgs, j + 1, i);
    TakenStays(ns[j + 1], ns[i], q);
  }

  lemma TakenStays(n: Node, n': Node, q: Hash)
    requires Extends(n, n') && q in n.taken
    ensures q in n'.taken
  {
  }

  lemma MessageFacts(ns: seq<Node>, anc: Ancestry, k: nat, msgs: seq<Message>, i: nat)
    requires Run(ns, anc, k, msgs) && Proper(msgs) && i < |msgs|
    ensures NodeOk(ns[i]) && Step(ns[i], anc, k, msgs[i], ns[i + 1]) && ProperHeader(msgs[i].hd)
    ensures msgs[i].hd.hash in ns[i].index ==> FromHeader(ns[i].index[msgs[i].hd.hash], msgs[i].hd)
    ensures ns[i + 1].taken <= ns[|msgs|].taken
  {
    RunOk(ns, anc, k, msgs, i);
    RunOrigins(ns, anc, k, msgs, i);
    RunExtends(ns, anc, k, msgs, i + 1, |msgs|);
    hide Step, NodeOk, FromHeader;
    EntryFromHeader(ns[i], msgs, msgs[i]);
  }

  lemma EntryFromHeader(n: Node, msgs: seq<Message>, m: Message)
    requires Origins(n, msgs) && Proper(msgs) && m in msgs
    ensures m.hd.hash in n.index ==> FromHeader(n.index[m.hd.hash], m.hd)
  {
    if m.hd.hash in n.index {
      var m0 :| m0 in msgs && OriginAt(n, m.hd.hash, m0);
    }
  }

  lemma TakenParent(n: Node, anc: Ancestry, k: nat, h: Hash, q: Hash)
    requires NodeOk(n) && h in n.index && q in n.index[h].Parents()
    ensures q != NULL
  {
    assert EntryLinked(n.index, h);
  }

  // ---------- what a body leaves behind is final ----------

  /**
   Messages for a node, in which no block is mentioned before the bodies of its parents, and its own
   body comes once.
   */
  ghost predicate Delivery(ns: seq<Node>, anc: Ancestry, k: nat, msgs: seq<Message>) {
    Run(ns, anc, k, msgs) && Proper(msgs) && ParentsFirst(msgs) && BodiesOnce(msgs)
  }

  /** Two nodes have the same of a block: its entry, if any, and whether it is taken in. */
  ghost predicate SameEntry(n1: Node, n2: Node, q: Hash) {
    && (q in n1.index <==> q in n2.index) && (q in n1.index && q in n2.index ==> n1.index[q] == n2.index[q])
    && (q in n1.taken <==> q in n2.taken)
  }

  /** Two graphs have the same of a block and all behind it. */
  ghost predicate SamePast(g1: Graph, g2: Graph, q: Hash) {
    (q in g1 <==> q in g2) && (q in g1 ==> Agree(g1, g2, q))
  }

  lemma SamePastBack(g1: Graph, g2: Graph, q: Hash)
    requires Linked(g1) && SamePast(g1, g2, q)
    ensures SamePast(g2, g1, q)
  {
    if q in g1 {
      AgreeBack(g1, g2, q);
    }
  }

  lemma HeaderOver(g1: Graph, g2: Graph, hd: Header)
    requires ProperHeader(hd) && Linked(g1) && Linked(g2) && HeaderOk(g1, hd)
    requires forall q :: Names(hd, q) ==> SamePast(g1, g2, q)
    ensures HeaderOk(g2, hd)
  {
    if hd.hash != GENESIS {
      assert Names(hd, hd.prev);
      AgreeHere(g1, g2, hd.prev);
      forall i | 0 <= i < |hd.extra| && hd.extra[i] in g2
        ensures !Descends(g2, hd.extra[i], hd.prev)
      {
        var q := hd.extra[i];
        assert q != NULL;
        assert Names(hd, q);
        AgreeHere(g1, g2, q);
        DownSame(g1, g2, q, g1[hd.prev].height);
      }
    }
  }

  lemma {:induction false} KnownOfSame(g1: Graph, g2: Graph, extra: seq<Hash>)
    requires forall p :: p in extra ==> (p in g1 <==> p in g2)
    ensures KnownOf(g1, extra) == KnownOf(g2, extra)
  {
    if extra != [] {
      assert extra[0] in extra;
      KnownOfSame(g1, g2, extra[1..]);
    }
  }

  lemma {:induction false} ResolvedSame(g1: Graph, g2: Graph, extra: seq<Hash>)
    requires forall p :: p in extra ==> (p in g1 <==> p in g2)
    ensures Resolved(g1, extra) == Resolved(g2, extra)
  {
    if extra != [] {
      assert extra[0] in extra;
      ResolvedSame(g1, g2, extra[1..]);
    }
  }

  lemma ExtraSame(g1: Graph, g2: Graph, hd: Header)
    requires Linked(g1) && Linked(g2) && forall q :: Names(hd, q) ==> SamePast(g1, g2, q)
    ensures forall p :: p in hd.extra ==> (p in g1 <==> p in g2)
  {
    hide Agree;
    forall p | p in hd.extra
      ensures p in g1 <==> p in g2
    {
      assert p != NULL ==> Names(hd, p);
    }
  }

  /** Whether a header is in order, and the entry it makes, depend on the past of its parents alone. */
  lemma HeaderSame(g1: Graph, g2: Graph, hd: Header)
    requires ProperHeader(hd) && Linked(g1) && Linked(g2) && forall q :: Names(hd, q) ==> SamePast(g1, g2, q)
    ensures HeaderOk(g1, hd) <==> HeaderOk(g2, hd)
    ensures HeaderOk(g1, hd) ==> NewEntry(g1, hd) == NewEntry(g2, hd)
  {
    forall q | Names(hd, q)
      ensures SamePast(g2, g1, q)
    {
      SamePastBack(g1, g2, q);
    }
    ExtraSame(g1, g2, hd);
    KnownOfSame(g1, g2, hd.extra);
    hide Linked, KnownOf;
    if HeaderOk(g1, hd) {
      HeaderOver(g1, g2, hd);
    } else if HeaderOk(g2, hd) {
      HeaderOver(g2, g1, hd);
    }
    if hd.prev != NULL {
      assert Names(hd, hd.prev);
      if hd.prev in g1 {
        AgreeHere(g1, g2, hd.prev);
      }
    } else {
      NoNull(g1, g2);
    }
  }

  lemma NoNull(g1: Graph, g2: Graph)
    requires Linked(g1) && Linked(g2)
    ensures NULL !in g1 && NULL !in g2
  {
  }

  lemma StepKeys(n: Node, anc: Ancestry, k: nat, m: Message, n': Node)
    requires NodeOk(n) && Step(n, anc, k, m, n')
    ensures n'.index.Keys == Announced(n.index, m.hd).Keys
  {
    hide DataFor, Blocked, HeaderOk;
    var hd := m.hd;
    var g1 := Announced(n.index, hd);
    if m.BodyMsg? && hd.hash in g1 && hd.hash !in n.taken {
      FilledFrame(g1, hd);
      hide Filled, Announced;
      var g := Filled(g1, hd);
      if n' != n.(index := g) {
        var d :| Takes(g, anc, k, hd.hash, d, n, n');
      }
    }
  }

  /** A message leaves all other blocks alone. */
  lemma StepOther(n: Node, anc: Ancestry, k: nat, m: Message, n': Node, q: Hash)
    requires NodeOk(n) && Step(n, anc, k, m, n') && ProperHeader(m.hd) && q != m.hd.hash
    ensures SameEntry(n, n', q)
  {
    StepOk(n, anc, k, m, n');
    hide Step, Linked;
    if q in n'.index {
      StepEntries(n, anc, k, m, n', q);
    }
  }

  lemma SameHeaderTwice(msgs: seq<Message>, i: nat, j: nat)
    requires Proper(msgs) && i < |msgs| && j < |msgs| && msgs[i].hd.hash == msgs[j].hd.hash
    ensures msgs[i].hd == msgs[j].hd && ProperHeader(msgs[i].hd)
  {
    assert msgs[i] in msgs && msgs[j] in msgs;
  }

  lemma ParentBody(msgs: seq<Message>, i: nat, q: Hash) returns (j: nat)
    requires ParentsFirst(msgs) && i < |msgs| && Names(msgs[i].hd, q)
    ensures j < i && BodyOf(msgs[j], q)
  {
    j :| 0 <= j < i && BodyOf(msgs[j], q);
  }

  lemma NoneAfter(msgs: seq<Message>, i: nat, j: nat, q: Hash)
    requires BodiesOnce(msgs) && i < |msgs| && j < |msgs| && BodyOf(msgs[i], q) && i != j
    ensures !BodyOf(msgs[j], q)
  {
  }

  /** The parents of an entry are named by the header of the block. */
  lemma EntryNamed(n: Node, msgs: seq<Message>, m: Message, p: Hash)
    requires NodeOk(n) && Origins(n, msgs) && Proper(msgs) && m in msgs
    requires m.hd.hash in n.index && p in n.index[m.hd.hash].Parents()
    ensures Names(m.hd, p) && p in n.index
  {
    EntryFromHeader(n, msgs, m);
    assert EntryLinked(n.index, m.hd.hash);
  }

  /** Once its body has come, nothing about a block changes any more, whether it was taken in or turned away. */
  lemma {:induction false} Settles(ns: seq<Node>, anc: Ancestry, k: nat, msgs: seq<Message>, j: nat, i: nat, q: Hash)
    requires Delivery(ns, anc, k, msgs) && j < i <= |msgs| && BodyOf(msgs[j], q)
    ensures SameEntry(ns[j + 1], ns[i], q)
    decreases j, 0, i
  {
    hide Step, ParentsFirst, BodiesOnce, Proper;
    if i > j + 1 {
      Settles(ns, anc, k, msgs, j, i - 1, q);
      var n, m, n' := ns[i - 1], msgs[i - 1], ns[i - 1 + 1];
      MessageFacts(ns, anc, k, msgs, i - 1);
      if m.hd.hash != q {
        StepOther(n, anc, k, m, n', q);
      } else {
        NoneAfter(msgs, j, i - 1, q);
        SameHeaderTwice(msgs, j, i - 1);
        if q !in n.index {
          NeverOk(ns, anc, k, msgs, j, i - 1, q);
        }
        HeaderIdle(n, anc, k, m, n');
      }
    }
  }

  lemma HeaderIdle(n: Node, anc: Ancestry, k: nat, m: Message, n': Node)
    requires Step(n, anc, k, m, n') && m.HeaderMsg? && (m.hd.hash in n.index || !HeaderOk(n.index, m.hd))
    ensures n' == n
  {
  }

  /** A header that was refused when the body came is refused ever after. */
  lemma {:induction false} NeverOk(ns: seq<Node>, anc: Ancestry, k: nat, msgs: seq<Message>, j: nat, i: nat, q: Hash)
    requires Delivery(ns, anc, k, msgs) && j < i < |msgs| && BodyOf(msgs[j], q)
    requires q !in ns[j + 1].index
    ensures !HeaderOk(ns[i].index, msgs[j].hd)
    decreases j, 0, 0
  {
    hide Step, ParentsFirst, BodiesOnce, Proper, HeaderOk, SamePast, Linked;
    var hd := msgs[j].hd;
    MessageFacts(ns, anc, k, msgs, j);
    RunOk(ns, anc, k, msgs, i);
    StepKeys(ns[j], anc, k, msgs[j], ns[j + 1]);
    NotAnnounced(ns[j].index, hd);
    forall p | Names(hd, p)
      ensures SamePast(ns[j].index, ns[i].index, p)
    {
      var j' := ParentBody(msgs, j, p);
      SettledPast(ns, anc, k, msgs, j', j, i, p);
    }
    NodeLinked(ns[j]);
    NodeLinked(ns[i]);
    HeaderSame(ns[j].index, ns[i].index, hd);
  }

  lemma NotAnnounced(g: Graph, hd: Header)
    requires hd.hash !in Announced(g, hd)
    ensures hd.hash !in g && !HeaderOk(g, hd)
  {
  }

  /** So nothing changes behind it either. */
  lemma {:induction false} SettledPast(
    ns: seq<Node>, anc: Ancestry, k: nat, msgs: seq<Message>, j: nat, a: nat, b: nat, q: Hash)
    requires Delivery(ns, anc, k, msgs) && j < a <= |msgs| && j < b <= |msgs| && BodyOf(msgs[j], q)
    ensures SamePast(ns[a].index, ns[b].index, q)
    decreases j, 1, 0
  {
    Settles(ns, anc, k, msgs, j, a, q);
    Settles(ns, anc, k, msgs, j, b, q);
    hide Step, ParentsFirst, BodiesOnce, Proper, Agree;
    if q in ns[a].index {
      RunOk(ns, anc, k, msgs, a);
      RunOrigins(ns, anc, k, msgs, a);
      hide Run, NodeOk, Origins;
      var parents := ns[a].index[q].Parents();
      forall x | 0 <= x < |parents|
        ensures Agree(ns[a].index, ns[b].index, parents[x])
      {
        EntryNamed(ns[a], msgs, msgs[j], parents[x]);
        var j' := ParentBody(msgs, j, parents[x]);
        SettledPast(ns, anc, k, msgs, j', a, b, parents[x]);
      }
      AgreeFromParents(ns[a].index, ns[b].index, q);
    }
  }

  /** Everything behind a block whose body has come has had its body before. */
  lemma {:induction false} BodyBehind(
    ns: seq<Node>, anc: Ancestry, k: nat, msgs: seq<Message>, j: nat, a: nat, q: Hash, x: Hash)
    returns (jx: nat)
    requires Delivery(ns, anc, k, msgs) && j < a <= |msgs| && BodyOf(msgs[j], q) && Reaches(ns[a].index, x, q)
    ensures jx <= j && BodyOf(msgs[jx], x)
    decreases j
  {
    if x == q {
      jx := j;
    } else {
      var p := ParentOnPath(ns[a].index, x, q);
      RunOk(ns, anc, k, msgs, a);
      RunOrigins(ns, anc, k, msgs, a);
      hide Step, ParentsFirst, BodiesOnce, Proper, Reaches, Origins, NodeOk;
      EntryNamed(ns[a], msgs, msgs[j], p);
      var j' := ParentBody(msgs, j, p);
      jx := BodyBehind(ns, anc, k, msgs, j', a, p, x);
    }
  }

  /** Until its body comes, the entry of a block is the one its header made. */
  lemma {:induction false} EntryBefore(ns: seq<Node>, anc: Ancestry, k: nat, msgs: seq<Message>, h: Hash, i: nat)
    returns (f: nat)
    requires Run(ns, anc, k, msgs) && Proper(msgs) && i < |ns| && h in ns[i].index
    requires forall x :: 0 <= x < i ==> !BodyOf(msgs[x], h)
    ensures f < i && msgs[f].hd.hash == h && HeaderOk(ns[f].index, msgs[f].hd)
    ensures ns[i].index[h] == NewEntry(ns[f].index, msgs[f].hd)
  {
    assert i > 0;
    MessageFacts(ns, anc, k, msgs, i - 1);
    var n, m, n' := ns[i - 1], msgs[i - 1], ns[i - 1 + 1];
    if h in n.index {
      if m.hd.hash == h {
        HeaderIdle(n, anc, k, m, n');
      } else {
        StepOther(n, anc, k, m, n', h);
      }
      f := EntryBefore(ns, anc, k, msgs, h, i - 1);
    } else {
      if m.hd.hash != h {
        StepOther(n, anc, k, m, n', h);
      }
      f := i - 1;
    }
  }

  /** What the header of a block has made of it by the time its body comes, and when it did. */
  lemma AnnouncedAt(ns: seq<Node>, anc: Ancestry, k: nat, msgs: seq<Message>, j: nat) returns (f: nat)
    requires Delivery(ns, anc, k, msgs) && j < |msgs| && msgs[j].BodyMsg?
    ensures f <= j && msgs[f].hd == msgs[j].hd && msgs[j].hd.hash !in ns[j].taken
    ensures var hd := msgs[j].hd; var g := Announced(ns[j].index, hd);
      && (hd.hash in g <==> HeaderOk(ns[f].index, hd))
      && (hd.hash in g ==> g[hd.hash] == NewEntry(ns[f].index, hd))
  {
    hide Step, HeaderOk, NewEntry;
    var hd := msgs[j].hd;
    forall x | 0 <= x < j
      ensures !BodyOf(msgs[x], hd.hash)
    {
      NoneAfter(msgs, j, x, hd.hash);
    }
    if hd.hash in ns[j].taken {
      var x := TakenWhen(ns, anc, k, msgs, hd.hash, j);
    }
    if hd.hash in ns[j].index {
      f := EntryBefore(ns, anc, k, msgs, hd.hash, j);
      SameHeaderTwice(msgs, f, j);
    } else {
      f := j;
    }
  }

  // ---------- two deliveries ----------

  /** A graph and the same with another entry for a block beyond the past. */
  lemma AgreeOff(g: Graph, g': Graph, h: Hash, p: Hash)
    requires p in g && !Reaches(g, h, p) && forall x :: x in g && x != h ==> x in g' && g'[x] == g[x]
    ensures Agree(g, g', p)
  {
  }

  /** The index at the moment a body is decided on. */
  ghost function Ready(n: Node, hd: Header): Graph
    requires hd.hash in Announced(n.index, hd)
  {
    Filled(Announced(n.index, hd), hd)
  }

  lemma ReadyFacts(n: Node, hd: Header)
    requires NodeOk(n) && hd.hash !in n.taken && hd.hash in Announced(n.index, hd)
    ensures var g := Ready(n, hd);
      && Linked(g) && hd.hash in g && (forall x :: x in n.index && x != hd.hash ==> x in g && g[x] == n.index[x])
      && (forall x :: x in g && x != hd.hash ==> x in n.index)
  {
    AnnouncedLinked(n.index, hd);
    hide Linked, HeaderOk;
    FilledLinked(Announced(n.index, hd), hd);
  }

  lemma ReadySame(n1: Node, n2: Node, hd: Header)
    requires NodeOk(n1) && NodeOk(n2) && hd.hash in Announced(n1.index, hd) && hd.hash in Announced(n2.index, hd)
    requires Announced(n1.index, hd)[hd.hash] == Announced(n2.index, hd)[hd.hash]
    requires forall q :: Names(hd, q) ==> SamePast(n1.index, n2.index, q) && q != hd.hash
    ensures Ready(n1, hd)[hd.hash] == Ready(n2, hd)[hd.hash]
  {
    var g1, g2 := Announced(n1.index, hd), Announced(n2.index, hd);
    NodeLinked(n1);
    NodeLinked(n2);
    ExtraSame(n1.index, n2.index, hd);
    assert hd.hash !in hd.extra || hd.hash == NULL by {
      assert hd.hash in hd.extra && hd.hash != NULL ==> Names(hd, hd.hash);
    }
    ResolvedSame(g1, g2, hd.extra);
  }

  /** The parents of a block have the same past at the two moments it is decided on. */
  lemma ReadyParents(n1: Node, n2: Node, hd: Header)
    requires NodeOk(n1) && NodeOk(n2) && hd.hash !in n1.taken && hd.hash !in n2.taken
    requires hd.hash in Announced(n1.index, hd) && hd.hash in Announced(n2.index, hd)
    requires forall q :: Names(hd, q) ==> Apart(n1, n2, hd.hash, q)
    requires forall p :: p in Ready(n1, hd)[hd.hash].Parents() ==> Names(hd, p)
    ensures AgreeAll(Ready(n1, hd), Ready(n2, hd), Ready(n1, hd)[hd.hash].Parents())
  {
    var h, g1, g2 := hd.hash, Ready(n1, hd), Ready(n2, hd);
    ReadyFacts(n1, hd);
    ReadyFacts(n2, hd);
    NodeLinked(n1);
    ParentsKnownIn(g1, h);
    var parents := g1[h].Parents();
    hide Ready, Agree, Reaches, Linked, NodeOk;
    forall i | 0 <= i < |parents|
      ensures Agree(g1, g2, parents[i])
    {
      var p := parents[i];
      assert p in parents && Apart(n1, n2, h, p);
      AgreeOff(n1.index, g1, h, p);
      AgreeOff(n2.index, g2, h, p);
      AgreeTrans(n1.index, n2.index, g2, p);
      AgreeBack(n1.index, g1, p);
      AgreeTrans(g1, n1.index, g2, p);
    }
  }

  /** The two nodes have the same of a parent and all behind it, and the block itself is not there. */
  ghost predicate Apart(n1: Node, n2: Node, h: Hash, q: Hash) {
    SamePast(n1.index, n2.index, q) && q != h && !Reaches(n1.index, h, q) && !Reaches(n2.index, h, q)
  }

  /** Two nodes decide alike on a body whose header and parents are the same to them. */
  lemma DecideAlike(n1: Node, n2: Node, anc: Ancestry, k: nat, hd: Header, n1': Node, n2': Node)
    requires PastOnly(anc) && NodeOk(n1) && NodeOk(n2) && hd.hash !in n1.taken && hd.hash !in n2.taken
    requires Step(n1, anc, k, BodyMsg(hd), n1') && Step(n2, anc, k, BodyMsg(hd), n2')
    requires hd.hash in Announced(n1.index, hd) <==> hd.hash in Announced(n2.index, hd)
    requires hd.hash in Announced(n1.index, hd) ==>
      && Announced(n1.index, hd)[hd.hash] == Announced(n2.index, hd)[hd.hash]
      && forall p :: p in Ready(n1, hd)[hd.hash].Parents() ==> Names(hd, p)
    requires forall q :: Names(hd, q) ==> Apart(n1, n2, hd.hash, q)
    ensures SameEntry(n1', n2', hd.hash)
  {
    hide Announced, Filled, Apart, PastOnly, NodeOk, Blocked, DataFor;
    if hd.hash in Announced(n1.index, hd) {
      forall q | Names(hd, q)
        ensures SamePast(n1.index, n2.index, q) && q != hd.hash
      {
        ApartSame(n1, n2, hd.hash, q);
      }
      ReadyFacts(n1, hd);
      ReadyFacts(n2, hd);
      ReadySame(n1, n2, hd);
      ReadyParents(n1, n2, hd);
      var g1, g2 := Ready(n1, hd), Ready(n2, hd);
      hide Linked, AgreeAll, SamePast;
      SameOutcome(n1, n2, anc, k, hd, n1', n2', g1, g2);
    } else {
      NotAnnounced(n1.index, hd);
      NotAnnounced(n2.index, hd);
    }
  }

  lemma ApartSame(n1: Node, n2: Node, h: Hash, q: Hash)
    requires Apart(n1, n2, h, q)
    ensures SamePast(n1.index, n2.index, q) && q != h
  {
  }

  /** What becomes of a body, given the index at the moment it is decided on. */
  ghost predicate Outcome(n: Node, anc: Ancestry, k: nat, hd: Header, n': Node, g: Graph)
    requires hd.hash in g
  {
    if |g[hd.hash].dagParents| < |hd.extra| || Blocked(g, anc, g[hd.hash].Parents()) then n' == n.(index := g)
    else exists d :: Takes(g, anc, k, hd.hash, d, n, n')
  }

  lemma SameOutcome(
    n1: Node, n2: Node, anc: Ancestry, k: nat, hd: Header, n1': Node, n2': Node, g1: Graph, g2: Graph)
    requires PastOnly(anc) && Linked(g1) && Linked(g2) && hd.hash in g1 && hd.hash in g2 && g1[hd.hash] == g2[hd.hash]
    requires hd.hash !in n1.taken && hd.hash !in n2.taken
    requires AgreeAll(g1, g2, g1[hd.hash].Parents())
    requires Outcome(n1, anc, k, hd, n1', g1) && Outcome(n2, anc, k, hd, n2', g2)
    ensures SameEntry(n1', n2', hd.hash)
  {
    hide PastOnly, Linked, AgreeAll, Blocked, DataFor;
    var parents := g1[hd.hash].Parents();
    AgreeAllBack(g1, g2, parents);
    if Blocked(g1, anc, parents) {
      BlockedSame(g1, g2, anc, parents);
    } else if Blocked(g2, anc, parents) {
      BlockedSame(g2, g1, anc, parents);
    } else if |g1[hd.hash].dagParents| >= |hd.extra| {
      var d1 :| Takes(g1, anc, k, hd.hash, d1, n1, n1');
      var d2 :| Takes(g2, anc, k, hd.hash, d2, n2, n2');
      Transfer(g1, g2, anc, k, parents, d1);
      DataUnique(g2, anc, k, parents, d1, d2);
    }
  }

  /** Two deliveries of the same blocks. */
  ghost predicate TwoRuns(
    ns1: seq<Node>, ns2: seq<Node>, anc: Ancestry, k: nat, msgs1: seq<Message>, msgs2: seq<Message>)
  {
    && PastOnly(anc) && Delivery(ns1, anc, k, msgs1) && Delivery(ns2, anc, k, msgs2) && Proper(msgs1 + msgs2)
    && forall m: Message :: m.BodyMsg? ==> (m in msgs1 <==> m in msgs2)
  }

  /** A parent of a block, with the places of its body in the two deliveries. */
  lemma ParentPlaces(
    ns1: seq<Node>, ns2: seq<Node>, anc: Ancestry, k: nat, msgs1: seq<Message>, msgs2: seq<Message>,
    i1: nat, i2: nat, q: Hash) returns (j1: nat, j2: nat)
    requires TwoRuns(ns1, ns2, anc, k, msgs1, msgs2)
    requires i1 < |msgs1| && i2 < |msgs2| && msgs1[i1].hd == msgs2[i2].hd && Names(msgs1[i1].hd, q)
    ensures j1 < i1 && j2 < i2 && BodyOf(msgs1[j1], q) && msgs1[j1] == msgs2[j2]
  {
    hide Run, PastOnly, ParentsFirst, BodiesOnce;
    j1 := ParentBody(msgs1, i1, q);
    j2 := ParentBody(msgs2, i2, q);
    assert msgs1[j1] in msgs1 + msgs2 && msgs2[j2] in msgs1 + msgs2;
  }

  /** What a body leaves behind is the same in both deliveries. */
  lemma {:induction false} SameFate(
    ns1: seq<Node>, ns2: seq<Node>, anc: Ancestry, k: nat, msgs1: seq<Message>, msgs2: seq<Message>, j1: nat, j2: nat)
    requires TwoRuns(ns1, ns2, anc, k, msgs1, msgs2)
    requires j1 < |msgs1| && j2 < |msgs2| && msgs1[j1] == msgs2[j2] && msgs1[j1].BodyMsg?
    ensures SameEntry(ns1[j1 + 1], ns2[j2 + 1], msgs1[j1].hd.hash)
    decreases j1, 0
  {
    assert |ns1| == |msgs1| + 1 && |ns2| == |msgs2| + 1;
    hide Step, Run, PastOnly, ParentsFirst, BodiesOnce, Proper, HeaderOk, NewEntry, Announced, Ready, SameEntry,
      SamePast;
    var hd := msgs1[j1].hd;
    var f1 := AnnouncedAt(ns1, anc, k, msgs1, j1);
    var f2 := AnnouncedAt(ns2, anc, k, msgs2, j2);
    MessageFacts(ns1, anc, k, msgs1, j1);
    MessageFacts(ns2, anc, k, msgs2, j2);
    MessageFacts(ns1, anc, k, msgs1, f1);
    MessageFacts(ns2, anc, k, msgs2, f2);
    NodeLinked(ns1[f1]);
    NodeLinked(ns2[f2]);
    forall q | Names(hd, q)
      ensures SamePast(ns1[f1].index, ns2[f2].index, q) && Apart(ns1[j1], ns2[j2], hd.hash, q)
    {
      var i1, i2 := ParentPlaces(ns1, ns2, anc, k, msgs1, msgs2, f1, f2, q);
      CrossPast(ns1, ns2, anc, k, msgs1, msgs2, i1, i2, f1, f2);
      CrossPast(ns1, ns2, anc, k, msgs1, msgs2, i1, i2, j1, j2);
      NotBehind(ns1, anc, k, msgs1, i1, j1);
      NotBehind(ns2, anc, k, msgs2, i2, j2);
    }
    HeaderSame(ns1[f1].index, ns2[f2].index, hd);
    hide Apart, Linked, NodeOk;
    if hd.hash in Announced(ns1[j1].index, hd) {
      ReadyNamed(ns1[j1], hd);
    }
    DecideAlike(ns1[j1], ns2[j2], anc, k, hd, ns1[j1 + 1], ns2[j2 + 1]);
  }

  lemma ReadyNamed(n: Node, hd: Header)
    requires NodeOk(n) && ProperHeader(hd) && hd.hash !in n.taken && hd.hash in Announced(n.index, hd)
    requires hd.hash in n.index ==> FromHeader(n.index[hd.hash], hd)
    ensures forall p :: p in Ready(n, hd)[hd.hash].Parents() ==> Names(hd, p)
  {
    ReadyFacts(n, hd);
    if hd.hash !in n.index {
      NewFromHeader(n.index, hd);
    }
    hide HeaderOk, NewEntry, Filled;
    FilledFromHeader(Announced(n.index, hd), hd);
    assert EntryLinked(Ready(n, hd), hd.hash);
  }

  lemma NotBehind(ns: seq<Node>, anc: Ancestry, k: nat, msgs: seq<Message>, i: nat, j: nat)
    requires Delivery(ns, anc, k, msgs) && i < j < |msgs| && msgs[i].BodyMsg? && msgs[j].BodyMsg?
    ensures msgs[i].hd.hash != msgs[j].hd.hash && !Reaches(ns[j].index, msgs[j].hd.hash, msgs[i].hd.hash)
  {
    var q, h := msgs[i].hd.hash, msgs[j].hd.hash;
    hide Run, Proper, ParentsFirst, Reaches;
    assert BodyOf(msgs[j], h) && BodyOf(msgs[i], q);
    if Reaches(ns[j].index, h, q) {
      var x := BodyBehind(ns, anc, k, msgs, i, j, q, h);
    }
  }

  /** So are the block and all behind it at any moments after its body. */
  lemma {:induction false} CrossPast(
    ns1: seq<Node>, ns2: seq<Node>, anc: Ancestry, k: nat, msgs1: seq<Message>, msgs2: seq<Message>,
    j1: nat, j2: nat, a: nat, b: nat)
    requires TwoRuns(ns1, ns2, anc, k, msgs1, msgs2)
    requires j1 < a <= |msgs1| && j2 < b <= |msgs2| && msgs1[j1] == msgs2[j2] && msgs1[j1].BodyMsg?
    ensures SameEntry(ns1[a], ns2[b], msgs1[j1].hd.hash) && SamePast(ns1[a].index, ns2[b].index, msgs1[j1].hd.hash)
    decreases j1, 1
  {
    var q := msgs1[j1].hd.hash;
    hide Step, Run, PastOnly, ParentsFirst, BodiesOnce, Proper, Agree;
    SameFate(ns1, ns2, anc, k, msgs1, msgs2, j1, j2);
    Settles(ns1, anc, k, msgs1, j1, a, q);
    Settles(ns2, anc, k, msgs2, j2, b, q);
    if q in ns1[a].index {
      RunOk(ns1, anc, k, msgs1, a);
      RunOrigins(ns1, anc, k, msgs1, a);
      var parents := ns1[a].index[q].Parents();
      hide NodeOk, Origins, TwoRuns;
      forall x | 0 <= x < |parents|
        ensures Agree(ns1[a].index, ns2[b].index, parents[x])
      {
        EntryNamed(ns1[a], msgs1, msgs1[j1], parents[x]);
        var i1, i2 := ParentPlaces(ns1, ns2, anc, k, msgs1, msgs2, j1, j2, parents[x]);
        CrossPast(ns1, ns2, anc, k, msgs1, msgs2, i1, i2, a, b);
      }
      AgreeFromParents(ns1[a].index, ns2[b].index, q);
    }
  }

  /**
   For every ancestor test that looks at the past alone: if the same blocks are delivered to two
   nodes, in any two orders with parents first, the nodes end with the same of every one of
   them: taken in or turned away, and with the same data.
   */
  lemma Delivered(
    ns1: seq<Node>, ns2: seq<Node>, anc: Ancestry, k: nat, msgs1: seq<Message>, msgs2: seq<Message>)
    requires TwoRuns(ns1, ns2, anc, k, msgs1, msgs2)
    ensures forall m :: m in msgs1 && m.BodyMsg? ==> SameEntry(ns1[|msgs1|], ns2[|msgs2|], m.hd.hash)
    ensures ns1[|msgs1|].taken == ns2[|msgs2|].taken
  {
    hide PastOnly, SameEntry, Step, Proper, ParentsFirst, BodiesOnce;
    forall m | m in msgs1 && m.BodyMsg?
      ensures SameEntry(ns1[|msgs1|], ns2[|msgs2|], m.hd.hash)
    {
      assert m in msgs2;
      var j1 :| 0 <= j1 < |msgs1| && msgs1[j1] == m;
      var j2 :| 0 <= j2 < |msgs2| && msgs2[j2] == m;
      CrossPast(ns1, ns2, anc, k, msgs1, msgs2, j1, j2, |msgs1|, |msgs2|);
    }
    forall h
      ensures h in ns1[|msgs1|].taken <==> h in ns2[|msgs2|].taken
    {
      TakenAlike(ns1, ns2, anc, k, msgs1, msgs2, h);
    }
  }

  lemma TakenAlike(
    ns1: seq<Node>, ns2: seq<Node>, anc: Ancestry, k: nat, msgs1: seq<Message>, msgs2: seq<Message>, h: Hash)
    requires TwoRuns(ns1, ns2, anc, k, msgs1, msgs2)
    requires forall m :: m in msgs1 && m.BodyMsg? ==> SameEntry(ns1[|msgs1|], ns2[|msgs2|], m.hd.hash)
    ensures h in ns1[|msgs1|].taken <==> h in ns2[|msgs2|].taken
  {
    hide PastOnly, Step, Proper, ParentsFirst, BodiesOnce;
    if h in ns1[|msgs1|].taken {
      var j := TakenWhen(ns1, anc, k, msgs1, h, |msgs1|);
      assert msgs1[j] in msgs1;
    }
    if h in ns2[|msgs2|].taken {
      var j := TakenWhen(ns2, anc, k, msgs2, h, |msgs2|);
      assert msgs2[j] in msgs2 && msgs2[j] in msgs1;
    }
  }

  /**
   With parents first, whether every block was taken in after its parents can be seen from the end:
   exactly if none was taken in whose parent was turned away.
   */
  lemma TimelyIffComplete(ns: seq<Node>, anc: Ancestry, k: nat, msgs: seq<Message>)
    requires Run(ns, anc, k, msgs) && Proper(msgs) && ParentsFirst(msgs) && BodiesOnce(msgs)
    ensures TimelyThroughout(ns, msgs) <==> ParentsTaken(ns[|msgs|])
  {
    if ParentsTaken(ns[|msgs|]) {
      forall i | 0 <= i < |msgs|
        ensures Timely(ns[i], msgs[i], ns[i + 1])
      {
        CompleteTimely(ns, anc, k, msgs, i);
      }
    }
    if TimelyThroughout(ns, msgs) {
      forall h, p | h in ns[|msgs|].taken && h in ns[|msgs|].index && p in ns[|msgs|].index[h].Parents()
        ensures p in ns[|msgs|].taken && p != h
      {
        TimelyComplete(ns, anc, k, msgs, h, p, |msgs|);
      }
    }
  }

  lemma CompleteTimely(ns: seq<Node>, anc: Ancestry, k: nat, msgs: seq<Message>, i: nat)
    requires Run(ns, anc, k, msgs) && Proper(msgs) && ParentsFirst(msgs) && BodiesOnce(msgs) && ParentsTaken(ns[|msgs|])
    requires i < |msgs|
    ensures Timely(ns[i], msgs[i], ns[i + 1])
  {
    var h := msgs[i].hd.hash;
    MessageFacts(ns, anc, k, msgs, i);
    RunOk(ns, anc, k, msgs, i + 1);
    RunExtends(ns, anc, k, msgs, i + 1, |msgs|);
    hide Step, Run, ParentsFirst, BodiesOnce, Proper, FromHeader;
    if h in ns[i + 1].taken && h !in ns[i].taken && h in ns[i + 1].index {
      StepEntries(ns[i], anc, k, msgs[i], ns[i + 1], h);
      forall p | p in ns[i + 1].index[h].Parents()
        ensures p in ns[i].taken
      {
        TakenParent(ns[i + 1], anc, k, h, p);
        EntryNames(ns[i + 1].index[h], msgs[i].hd, p);
        ParentReady(ns, anc, k, msgs, i, p);
      }
    }
  }

  lemma EntryNames(e: Block, hd: Header, p: Hash)
    requires FromHeader(e, hd) && e.dagParents == hd.extra && p in e.Parents() && p != NULL
    ensures Names(hd, p)
  {
  }

  lemma {:induction false} TimelyComplete(
    ns: seq<Node>, anc: Ancestry, k: nat, msgs: seq<Message>, h: Hash, p: Hash, i: nat)
    requires Run(ns, anc, k, msgs) && TimelyThroughout(ns, msgs) && i < |ns|
    requires h in ns[i].taken && h in ns[i].index && p in ns[i].index[h].Parents()
    ensures p in ns[i].taken && p != h
  {
    hide Step;
    assert i > 0;
    assert Step(ns[i - 1], anc, k, msgs[i - 1], ns[i - 1 + 1]) && Timely(ns[i - 1], msgs[i - 1], ns[i - 1 + 1]);
    RunOk(ns, anc, k, msgs, i - 1);
    StepOk(ns[i - 1], anc, k, msgs[i - 1], ns[i]);
    if h in ns[i - 1].taken {
      TakenKnown(ns[i - 1], h);
      TimelyComplete(ns, anc, k, msgs, h, p, i - 1);
    } else {
      TookBody(ns[i - 1], anc, k, msgs[i - 1], ns[i]);
    }
  }
}
