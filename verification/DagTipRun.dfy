/**
 The tips along a run of a node: each block taken in is connected once, with the score it has
 got by then.
 */
module DagTipRun {
  import opened Dag
  import opened DagNode
  import opened DagRuns
  import DagTips

  ghost predicate TookOne(n: Node, m: Message, n': Node) {
    m.hd.hash in n'.taken && m.hd.hash !in n.taken && m.hd.hash in n'.index
  }

  function Join(n: Node, h: Hash): DagTips.Joined
    requires h in n.index
  {
    DagTips.Joined(h, n.index[h].data.blueScore, n.index[h].Parents())
  }

  /** The blocks of a run in the order they were taken in. */
  ghost function Connects(ns: seq<Node>, msgs: seq<Message>, i: nat): seq<DagTips.Joined>
    requires i < |ns| && i <= |msgs|
  {
    if i == 0 then []
    else
      var rest := Connects(ns, msgs, i - 1);
      if TookOne(ns[i - 1], msgs[i - 1], ns[i]) then rest + [Join(ns[i], msgs[i - 1].hd.hash)] else rest
  }

  lemma {:induction false} ConnectsPrefix(ns: seq<Node>, n: Node, msgs: seq<Message>, m: Message, i: nat)
    requires i < |ns| && i <= |msgs|
    ensures Connects(ns + [n], msgs + [m], i) == Connects(ns, msgs, i)
  {
    if i > 0 {
      ConnectsPrefix(ns, n, msgs, m, i - 1);
    }
  }

  ghost predicate Among(blocks: seq<DagTips.Joined>, h: Hash) {
    exists j :: 0 <= j < |blocks| && blocks[j].hash == h
  }

  lemma AmongMore(blocks: seq<DagTips.Joined>, b: DagTips.Joined, h: Hash)
    ensures Among(blocks + [b], h) <==> Among(blocks, h) || h == b.hash
  {
    var all := blocks + [b];
    assert all[|blocks|].hash == b.hash;
    if j :| 0 <= j < |blocks| && blocks[j].hash == h {
      assert all[j].hash == h;
    }
  }

  /** They are the blocks taken in, each once. */
  lemma {:induction false} ConnectsOnce(ns: seq<Node>, anc: Ancestry, k: nat, msgs: seq<Message>, i: nat)
    requires Run(ns, anc, k, msgs) && i <= |msgs|
    ensures DagTips.Once(Connects(ns, msgs, i))
    ensures forall h :: h in ns[i].taken <==> Among(Connects(ns, msgs, i), h)
  {
    hide Step;
    if i > 0 {
      ConnectsOnce(ns, anc, k, msgs, i - 1);
      RunOk(ns, anc, k, msgs, i - 1);
      assert Step(ns[i - 1], anc, k, msgs[i - 1], ns[i - 1 + 1]);
      StepOk(ns[i - 1], anc, k, msgs[i - 1], ns[i]);
      var was, now := Connects(ns, msgs, i - 1), Connects(ns, msgs, i);
      if ns[i].taken != ns[i - 1].taken {
        NotTaken(ns[i - 1], anc, k, msgs[i - 1], ns[i]);
        var b := now[|was|];
        assert now == was + [b] && b.hash == msgs[i - 1].hd.hash;
        forall h
          ensures Among(now, h) <==> Among(was, h) || h == b.hash
        {
          AmongMore(was, b, h);
        }
        assert forall j :: 0 <= j < |was| ==> Among(was, was[j].hash);
      }
    }
  }

  /** Each was connected as it is in the index ever after. */
  lemma {:induction false} ConnectsAsIs(ns: seq<Node>, anc: Ancestry, k: nat, msgs: seq<Message>, i: nat)
    requires Run(ns, anc, k, msgs) && i <= |msgs|
    ensures forall j :: 0 <= j < |Connects(ns, msgs, i)| ==>
      var b := Connects(ns, msgs, i)[j]; b.hash in ns[i].taken && b.hash in ns[i].index && b == Join(ns[i], b.hash)
  {
    hide Step, Block.Parents;
    if i > 0 {
      ConnectsAsIs(ns, anc, k, msgs, i - 1);
      RunOk(ns, anc, k, msgs, i - 1);
      assert Step(ns[i - 1], anc, k, msgs[i - 1], ns[i - 1 + 1]);
      StepOk(ns[i - 1], anc, k, msgs[i - 1], ns[i]);
      hide Run, NodeOk;
    }
  }

  /** If every block is taken in after its parents, none is connected after a child. */
  lemma {:induction false} TimelyConnects(ns: seq<Node>, anc: Ancestry, k: nat, msgs: seq<Message>, i: nat)
    requires Run(ns, anc, k, msgs) && TimelyThroughout(ns, msgs) && i <= |msgs|
    ensures DagTips.ChildrenAfter(Connects(ns, msgs, i))
    ensures forall j :: 0 <= j < |Connects(ns, msgs, i)| ==>
      forall p :: p in Connects(ns, msgs, i)[j].parents ==> p in ns[i].taken
  {
    hide Step;
    if i > 0 {
      TimelyConnects(ns, anc, k, msgs, i - 1);
      TookTimely(ns, anc, k, msgs, i - 1);
      hide Run, Timely, Block.Parents;
    }
  }

  /** A step of such a run keeps what was taken in, and the parents of what it takes in were there before. */
  lemma TookTimely(ns: seq<Node>, anc: Ancestry, k: nat, msgs: seq<Message>, i: nat)
    requires Run(ns, anc, k, msgs) && TimelyThroughout(ns, msgs) && i < |msgs|
    ensures ns[i].taken <= ns[i + 1].taken
    ensures var h := msgs[i].hd.hash;
            TookOne(ns[i], msgs[i], ns[i + 1]) ==> forall p :: p in ns[i + 1].index[h].Parents() ==> p in ns[i].taken
  {
    hide Step, Block.Parents;
    RunOk(ns, anc, k, msgs, i);
    assert Step(ns[i], anc, k, msgs[i], ns[i + 1]) && Timely(ns[i], msgs[i], ns[i + 1]);
    StepOk(ns[i], anc, k, msgs[i], ns[i + 1]);
  }

  /** A block of which some block taken in is a child. */
  ghost predicate HasChild(n: Node, h: Hash) {
    exists c :: c in n.taken && c in n.index && h in n.index[c].Parents()
  }

  lemma ChildAmong(ns: seq<Node>, anc: Ancestry, k: nat, msgs: seq<Message>, i: nat, x: nat)
    requires Run(ns, anc, k, msgs) && i <= |msgs| && x < |Connects(ns, msgs, i)|
    ensures DagTips.AnyChild(Connects(ns, msgs, i), x) <==> HasChild(ns[i], Connects(ns, msgs, i)[x].hash)
  {
    ConnectsAsIs(ns, anc, k, msgs, i);
    ConnectsOnce(ns, anc, k, msgs, i);
    hide Run, Connects, Block.Parents;
    var blocks := Connects(ns, msgs, i);
    var h := blocks[x].hash;
    if DagTips.AnyChild(blocks, x) {
      var j :| 0 <= j < |blocks| && h in blocks[j].parents;
      assert blocks[j] == Join(ns[i], blocks[j].hash);
    }
    if c :| c in ns[i].taken && c in ns[i].index && h in ns[i].index[c].Parents() {
      assert Among(blocks, c);
      var j :| 0 <= j < |blocks| && blocks[j].hash == c;
      assert blocks[j] == Join(ns[i], c);
    }
  }

  /**
   If every block is taken in after its parents, then at every moment of the run the tips that
   connecting the blocks has left are the blocks taken in that have no child.
   */
  lemma TimelyTips(
    ns: seq<Node>, anc: Ancestry, k: nat, msgs: seq<Message>, i: nat, tips: map<Hash, nat>, h: Hash)
    requires Run(ns, anc, k, msgs) && TimelyThroughout(ns, msgs) && i <= |msgs|
    requires DagTips.TipsAre(tips, Connects(ns, msgs, i))
    ensures h in tips <==> h in ns[i].taken && !HasChild(ns[i], h)
  {
    var blocks := Connects(ns, msgs, i);
    TimelyConnects(ns, anc, k, msgs, i);
    ConnectsOnce(ns, anc, k, msgs, i);
    DagTips.ThroughoutIff(blocks);
    assert blocks[..|blocks|] == blocks;
    hide Run, Connects, TimelyThroughout, DagTips.TipsAre, HasChild, DagTips.AnyChild, DagTips.ChildrenAfter;
    assert DagTips.TipsChildless(tips, blocks);
    if x :| 0 <= x < |blocks| && blocks[x].hash == h {
      ChildAmong(ns, anc, k, msgs, i, x);
    }
  }

  /**
   Handles messages one after the other, connecting every block that is taken in. The tips are
   the blocks without a child connected after them; if every block is taken in after its
   parents, they are the blocks without a child.
   */
  method ProcessWithTips(anc: Ancestry, k: nat, msgs: seq<Message>)
    returns (n: Node, t: DagTips.DagTipSet, ghost ns: seq<Node>)
    ensures Run(ns, anc, k, msgs) && n == ns[|msgs|] && fresh(t) && t.Valid()
    ensures DagTips.TipsAre(t.hashToScore, Connects(ns, msgs, |msgs|))
    ensures TimelyThroughout(ns, msgs) ==> forall h :: h in t.hashToScore <==> h in n.taken && !HasChild(n, h)
  {
    hide Step, DagTips.TipsAre, Connects;
    n := EMPTY_NODE;
    ns := [n];
    t := new DagTips.DagTipSet();
    NoTips(t.hashToScore, ns);
    for i := 0 to |msgs|
      invariant Run(ns, anc, k, msgs[..i]) && n == ns[i] && NodeOk(n) && fresh(t) && t.Valid()
      invariant DagTips.TipsAre(t.hashToScore, Connects(ns, msgs[..i], i))
    {
      ghost var before := ns;
      var was, m := n, msgs[i];
      assert msgs[..i + 1] == msgs[..i] + [m];
      n := ProcessMessage(n, anc, k, m);
      ns := ns + [n];
      assert Run(ns, anc, k, msgs[..i + 1]);
      ConnectsNext(before, n, anc, k, msgs[..i], m);
      if m.hd.hash in n.taken && m.hd.hash !in was.taken {
        Connect(t, n, m.hd.hash, Connects(before, msgs[..i], i));
      }
    }
    assert msgs[..|msgs|] == msgs;
    if TimelyThroughout(ns, msgs) {
      forall h
        ensures h in t.hashToScore <==> h in n.taken && !HasChild(n, h)
      {
        TimelyTips(ns, anc, k, msgs, |msgs|, t.hashToScore, h);
      }
    }
  }

  lemma NoTips(tips: map<Hash, nat>, ns: seq<Node>)
    requires tips == map[] && |ns| > 0
    ensures DagTips.TipsAre(tips, Connects(ns, [], 0))
  {
  }

  /** One more message: the blocks taken in are the same, or one more that was not among them. */
  lemma ConnectsNext(ns: seq<Node>, n: Node, anc: Ancestry, k: nat, msgs: seq<Message>, m: Message)
    requires Run(ns + [n], anc, k, msgs + [m]) && |ns| == |msgs| + 1
    ensures var was, now := Connects(ns, msgs, |msgs|), Connects(ns + [n], msgs + [m], |msgs| + 1);
      var h := m.hd.hash;
      if h in n.taken && h !in ns[|msgs|].taken then h in n.index && now == was + [Join(n, h)] && DagTips.Once(now)
      else now == was
  {
    RunOk(ns + [n], anc, k, msgs + [m], |msgs| + 1);
    ConnectsPrefix(ns, n, msgs, m, |msgs|);
    ConnectsOnce(ns + [n], anc, k, msgs + [m], |msgs| + 1);
    hide Run;
  }

  /** Connects a block that has just been taken in. */
  method Connect(t: DagTips.DagTipSet, n: Node, h: Hash, ghost blocks: seq<DagTips.Joined>)
    requires t.Valid() && h in n.index && DagTips.TipsAre(t.hashToScore, blocks) && DagTips.Once(blocks + [Join(n, h)])
    modifies t
    ensures t.Valid() && DagTips.TipsAre(t.hashToScore, blocks + [Join(n, h)])
  {
    ghost var tips, all := t.hashToScore, blocks + [Join(n, h)];
    assert all[..|blocks|] == blocks;
    DagTips.NotYet(tips, all, |blocks|);
    hide DagTips.TipsAre;
    t.BlockConnected(h, n.index[h].data.blueScore, n.index[h].Parents());
    DagTips.ConnectOne(tips, t.hashToScore, blocks, Join(n, h));
  }
}
