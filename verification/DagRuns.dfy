/**
 Runs of a node over any sequence of header and block messages: if every block is taken in after
 its parents, all data is right throughout.
 */
module DagRuns {
  import opened Dag
  import opened Ghostdag
  import opened DagAgreement
  import opened DagNode

  // ---------- right data ----------

  /** Every block taken in has the data its parents call for now. */
  ghost predicate DataRight(n: Node, anc: Ancestry, k: nat) {
    forall h :: h in n.taken && h in n.index ==> DataFor(n.index, anc, k, n.index[h].Parents(), n.index[h].data)
  }

  /** Every block taken in has its parents taken in. */
  ghost predicate ParentsTaken(n: Node) {
    forall h, p :: h in n.taken && h in n.index && p in n.index[h].Parents() ==> p in n.taken && p != h
  }

  ghost predicate RightAt(n: Node, anc: Ancestry, k: nat, h: Hash)
    requires h in n.index
  {
    && (forall p :: p in n.index[h].Parents() ==> p in n.taken && p != h)
    && DataFor(n.index, anc, k, n.index[h].Parents(), n.index[h].data)
  }

  ghost predicate Right(n: Node, anc: Ancestry, k: nat) {
    forall h :: h in n.taken && h in n.index ==> RightAt(n, anc, k, h)
  }

  lemma RightBoth(n: Node, anc: Ancestry, k: nat)
    ensures Right(n, anc, k) <==> DataRight(n, anc, k) && ParentsTaken(n)
  {
    hide DataFor;
    if Right(n, anc, k) {
      forall h | h in n.taken && h in n.index
        ensures DataFor(n.index, anc, k, n.index[h].Parents(), n.index[h].data)
        ensures forall p :: p in n.index[h].Parents() ==> p in n.taken && p != h
      {
        assert RightAt(n, anc, k, h);
      }
    }
  }

  /** If the message makes the node take a block in, its parents have been taken in before. */
  ghost predicate Timely(n: Node, m: Message, n': Node) {
    m.hd.hash in n'.taken && m.hd.hash !in n.taken && m.hd.hash in n'.index ==>
      forall p :: p in n'.index[m.hd.hash].Parents() ==> p in n.taken
  }

  /** The past of a block taken in has been taken in. */
  lemma {:induction false} PastTaken(n: Node, anc: Ancestry, k: nat, s: seq<Hash>, i: nat)
    requires Right(n, anc, k) && Path(n.index, s) && s[0] in n.taken && i < |s|
    ensures s[i] in n.taken
  {
    hide DataFor;
    if i > 0 {
      PastTaken(n, anc, k, s, i - 1);
      assert IsParent(n.index, s[i - 1 + 1], s[i - 1]);
      assert RightAt(n, anc, k, s[i - 1]);
    }
  }

  /** So it is the same ever after. */
  lemma PastStays(n: Node, anc: Ancestry, k: nat, n': Node, h: Hash)
    requires NodeOk(n) && Right(n, anc, k) && Extends(n, n') && h in n.taken
    ensures Agree(n.index, n'.index, h)
  {
    hide Right, Linked;
    forall x | Reaches(n.index, x, h)
      ensures x in n.index && x in n'.index && n'.index[x] == n.index[x]
    {
      var s :| Joins(n.index, s, h, x);
      PastTaken(n, anc, k, s, |s| - 1);
    }
  }

  lemma AllStay(n: Node, anc: Ancestry, k: nat, n': Node, s: seq<Hash>)
    requires NodeOk(n) && Right(n, anc, k) && Extends(n, n') && forall p :: p in s ==> p in n.taken
    ensures AgreeAll(n.index, n'.index, s)
  {
    hide Right, NodeOk, Extends, Agree;
    forall i | 0 <= i < |s|
      ensures Agree(n.index, n'.index, s[i])
    {
      assert s[i] in s;
      PastStays(n, anc, k, n', s[i]);
    }
  }

  lemma RightStays(n: Node, anc: Ancestry, k: nat, n': Node, h: Hash)
    requires PastOnly(anc) && NodeOk(n) && NodeOk(n') && Right(n, anc, k) && Extends(n, n') && h in n.taken
    requires h in n.index
    ensures h in n'.index && RightAt(n', anc, k, h)
  {
    hide DataFor, Linked, PastOnly;
    assert RightAt(n, anc, k, h);
    AllStay(n, anc, k, n', n.index[h].Parents());
    Transfer(n.index, n'.index, anc, k, n.index[h].Parents(), n.index[h].data);
  }

  /** What a message did that took a block in. */
  lemma TookIn(n: Node, anc: Ancestry, k: nat, m: Message, n': Node) returns (g: Graph)
    requires NodeOk(n) && Step(n, anc, k, m, n') && n'.taken != n.taken
    ensures m.BodyMsg? && m.hd.hash !in n.taken && n'.taken == n.taken + {m.hd.hash}
    ensures Linked(g) && m.hd.hash in g && Takes(g, anc, k, m.hd.hash, n'.index[m.hd.hash].data, n, n')
    ensures g[m.hd.hash].data == NO_DATA && Extends(n, n.(index := g)) && |g[m.hd.hash].dagParents| >= |m.hd.extra|
  {
    hide Linked, DataFor, Blocked, HeaderOk;
    var hd := m.hd;
    AnnouncedLinked(n.index, hd);
    var g1 := Announced(n.index, hd);
    FilledLinked(g1, hd);
    FilledFrame(g1, hd);
    g := Filled(g1, hd);
    hide Filled;
    var d :| Takes(g, anc, k, hd.hash, d, n, n');
  }

  lemma NotTaken(n: Node, anc: Ancestry, k: nat, m: Message, n': Node)
    requires NodeOk(n) && Step(n, anc, k, m, n') && n'.taken != n.taken
    ensures m.hd.hash !in n.taken && n'.taken == n.taken + {m.hd.hash} && m.hd.hash in n'.index
  {
    var g := TookIn(n, anc, k, m, n');
  }

  /** A timely message keeps all data right. */
  lemma StepRight(n: Node, anc: Ancestry, k: nat, m: Message, n': Node)
    requires PastOnly(anc) && NodeOk(n) && Right(n, anc, k) && Step(n, anc, k, m, n') && Timely(n, m, n')
    ensures Right(n', anc, k)
  {
    StepOk(n, anc, k, m, n');
    hide Linked, DataFor, PastOnly, Step, NodeOk;
    if n'.taken != n.taken {
      NotTaken(n, anc, k, m, n');
    }
    forall h | h in n'.taken && h in n'.index
      ensures RightAt(n', anc, k, h)
    {
      if h !in n.taken {
        NewRight(n, anc, k, m, n');
      } else {
        TakenKnown(n, h);
        RightStays(n, anc, k, n', h);
      }
    }
  }

  lemma TakenKnown(n: Node, h: Hash)
    requires NodeOk(n) && h in n.taken
    ensures h in n.index
  {
  }

  lemma NewRight(n: Node, anc: Ancestry, k: nat, m: Message, n': Node)
    requires PastOnly(anc) && NodeOk(n) && NodeOk(n') && Extends(n, n') && Right(n, anc, k) && Step(n, anc, k, m, n')
    requires n'.taken != n.taken
    requires m.hd.hash in n'.index && Timely(n, m, n')
    ensures RightAt(n', anc, k, m.hd.hash)
  {
    var g := TookIn(n, anc, k, m, n');
    hide Linked, DataFor, PastOnly, Step, NodeOk, Right;
    var h := m.hd.hash;
    var parents := g[h].Parents();
    assert n'.index[h].Parents() == parents;
    AllStay(n, anc, k, n.(index := g), parents);
    AllStay(n, anc, k, n', parents);
    Between(n.index, g, n'.index, parents);
    NodeLinked(n);
    NodeLinked(n');
    Transfer(g, n'.index, anc, k, parents, n'.index[h].data);
  }

  lemma NodeLinked(n: Node)
    requires NodeOk(n)
    ensures Linked(n.index)
  {
  }

  lemma Between(g: Graph, g1: Graph, g2: Graph, s: seq<Hash>)
    requires Linked(g) && AgreeAll(g, g1, s) && AgreeAll(g, g2, s)
    ensures AgreeAll(g1, g2, s)
  {
    forall i | 0 <= i < |s|
      ensures Agree(g1, g2, s[i])
    {
      AgreeHere(g, g1, s[i]);
      forall x | Reaches(g1, x, s[i])
        ensures x in g1 && x in g2 && g2[x] == g1[x]
      {
        ReachesSame(g, g1, x, s[i]);
      }
    }
  }

  // ---------- whole runs ----------

  const EMPTY_NODE := Node(map[], {})

  ghost predicate Run(ns: seq<Node>, anc: Ancestry, k: nat, msgs: seq<Message>) {
    && |ns| == |msgs| + 1 && ns[0] == EMPTY_NODE
    && forall i :: 0 <= i < |msgs| ==> Step(ns[i], anc, k, msgs[i], ns[i + 1])
  }

  lemma {:induction false} RunOk(ns: seq<Node>, anc: Ancestry, k: nat, msgs: seq<Message>, i: nat)
    requires Run(ns, anc, k, msgs) && i < |ns|
    ensures NodeOk(ns[i])
  {
    hide Step;
    if i > 0 {
      RunOk(ns, anc, k, msgs, i - 1);
      assert Step(ns[i - 1], anc, k, msgs[i - 1], ns[i - 1 + 1]);
      StepOk(ns[i - 1], anc, k, msgs[i - 1], ns[i]);
    }
  }

  lemma {:induction false} RunExtends(ns: seq<Node>, anc: Ancestry, k: nat, msgs: seq<Message>, i: nat, j: nat)
    requires Run(ns, anc, k, msgs) && i <= j < |ns|
    ensures Extends(ns[i], ns[j])
    decreases j - i
  {
    RunOk(ns, anc, k, msgs, i);
    hide Step;
    if i < j {
      RunExtends(ns, anc, k, msgs, i, j - 1);
      RunOk(ns, anc, k, msgs, j - 1);
      assert Step(ns[j - 1], anc, k, msgs[j - 1], ns[j - 1 + 1]);
      StepOk(ns[j - 1], anc, k, msgs[j - 1], ns[j]);
    }
  }

  /** Every block is taken in after its parents. */
  ghost predicate TimelyThroughout(ns: seq<Node>, msgs: seq<Message>)
    requires |ns| == |msgs| + 1
  {
    forall i :: 0 <= i < |msgs| ==> Timely(ns[i], msgs[i], ns[i + 1])
  }

  lemma {:induction false} TimelyRight(ns: seq<Node>, anc: Ancestry, k: nat, msgs: seq<Message>, i: nat)
    requires PastOnly(anc) && Run(ns, anc, k, msgs) && TimelyThroughout(ns, msgs) && i < |ns|
    ensures Right(ns[i], anc, k)
  {
    hide Step, PastOnly;
    if i > 0 {
      TimelyRight(ns, anc, k, msgs, i - 1);
      RunOk(ns, anc, k, msgs, i - 1);
      assert Step(ns[i - 1], anc, k, msgs[i - 1], ns[i - 1 + 1]) && Timely(ns[i - 1], msgs[i - 1], ns[i - 1 + 1]);
      StepRight(ns[i - 1], anc, k, msgs[i - 1], ns[i]);
    }
  }

  /**
   For every ancestor test that looks at the past alone, every K and every run of messages: if
   each block is taken in after its parents, all blocks have the data their parents call for,
   throughout.
   */
  lemma TimelyDataRight(ns: seq<Node>, anc: Ancestry, k: nat, msgs: seq<Message>)
    requires PastOnly(anc) && Run(ns, anc, k, msgs) && TimelyThroughout(ns, msgs)
    ensures forall i :: 0 <= i < |ns| ==> DataRight(ns[i], anc, k) && ParentsTaken(ns[i])
  {
    hide Run, PastOnly, Right, TimelyThroughout, DataRight, ParentsTaken;
    forall i | 0 <= i < |ns|
      ensures DataRight(ns[i], anc, k) && ParentsTaken(ns[i])
    {
      TimelyRight(ns, anc, k, msgs, i);
      RightBoth(ns[i], anc, k);
    }
  }

  /** Then scores rise from parents to children in the past of every block taken in. */
  lemma RightScored(n: Node, anc: Ancestry, k: nat, h: Hash)
    requires NodeOk(n) && Right(n, anc, k) && h in n.taken
    ensures Scored(n.index, h)
  {
    TakenKnown(n, h);
    hide Right, DataFor, Linked;
    forall p, c | Reaches(n.index, c, h) && IsParent(n.index, p, c)
      ensures Score(n.index, p) < Score(n.index, c)
    {
      var s :| Joins(n.index, s, h, c);
      PastTaken(n, anc, k, s, |s| - 1);
      ParentsScore(n, anc, k, c);
    }
  }

  lemma ParentsScore(n: Node, anc: Ancestry, k: nat, h: Hash)
    requires NodeOk(n) && Right(n, anc, k) && h in n.taken && h in n.index
    ensures forall p :: p in n.index[h].Parents() ==> Score(n.index, p) < Score(n.index, h)
  {
    hide DataFor, Linked;
    assert RightAt(n, anc, k, h);
    ParentsKnownIn(n.index, h);
    ScoreRises(n.index, anc, k, n.index[h].Parents(), n.index[h].data);
  }

  method ProcessMessage(n: Node, anc: Ancestry, k: nat, m: Message) returns (n': Node)
    requires NodeOk(n)
    ensures Step(n, anc, k, m, n') && NodeOk(n')
  {
    hide Step;
    match m {
      case HeaderMsg(hd) =>
        n' := ProcessHeader(n, hd);
        HeaderStep(n, anc, k, hd, n');
      case BodyMsg(hd) =>
        n' := ProcessBlock(n, anc, k, hd);
    }
    StepOk(n, anc, k, m, n');
  }

  /** Handles messages one after the other. */
  method Process(anc: Ancestry, k: nat, msgs: seq<Message>) returns (n: Node, ghost ns: seq<Node>)
    ensures Run(ns, anc, k, msgs) && n == ns[|msgs|] && NodeOk(n)
  {
    hide Step;
    n := EMPTY_NODE;
    ns := [n];
    for i := 0 to |msgs|
      invariant |ns| == i + 1 && ns[0] == EMPTY_NODE && n == ns[i] && NodeOk(n)
      invariant forall j :: 0 <= j < i ==> Step(ns[j], anc, k, msgs[j], ns[j + 1])
    {
      n := ProcessMessage(n, anc, k, msgs[i]);
      ns := ns + [n];
    }
  }

  lemma HeaderStep(n: Node, anc: Ancestry, k: nat, hd: Header, n': Node)
    requires n' == n.(index := Announced(n.index, hd))
    ensures Step(n, anc, k, HeaderMsg(hd), n')
  {
  }
}
