/** What the header checks are for: in every run no entry of the index names a parent twice. */
module DagLinks {
  import opened Dag
  import opened Ghostdag
  import opened DagNode
  import opened DagRuns
  import opened DagDelivery

  predicate CleanHeader(hd: Header) {
    Distinct(hd.extra) && hd.prev !in hd.extra
  }

  ghost predicate LinksAt(g: Graph, h: Hash, msgs: seq<Message>)
    requires h in g
  {
    && NoRepeats(g[h].Parents())
    && exists m :: m in msgs && m.hd.hash == h && m.hd.prev == g[h].pprev && CleanHeader(m.hd)
  }

  ghost predicate LinksOk(g: Graph, msgs: seq<Message>) {
    forall h :: h in g && h != GENESIS ==> LinksAt(g, h, msgs)
  }

  // ---------- parent lists ----------

  lemma {:induction false} KnownOnce(g: Graph, extra: seq<Hash>)
    requires Distinct(extra)
    ensures Distinct(KnownOf(g, extra))
  {
    if extra != [] {
      KnownOnce(g, extra[1..]);
      KnownOfIn(g, extra[1..]);
      assert extra[0] !in extra[1..];
      assert extra[0] !in KnownOf(g, extra[1..]);
    }
  }

  lemma {:induction false} ResolvedOnce(g: Graph, extra: seq<Hash>)
    requires Distinct(extra)
    ensures Distinct(Resolved(g, extra))
  {
    if extra != [] && extra[0] in g {
      ResolvedOnce(g, extra[1..]);
      ResolvedIn(g, extra[1..]);
      assert extra[0] !in extra[1..];
      assert extra[0] !in Resolved(g, extra[1..]);
    }
  }

  /** The parents of an entry that took its further parents from a clean header. */
  lemma ParentsOnce(e: Block, hd: Header)
    requires CleanHeader(hd) && e.pprev == hd.prev && Distinct(e.dagParents)
    requires forall p :: p in e.dagParents ==> p in hd.extra
    ensures NoRepeats(e.Parents())
  {
    assert forall i :: 0 <= i < |e.dagParents| ==> e.dagParents[i] in e.dagParents;
  }

  // ---------- one message ----------

  /** What a message may do to the entry it is about. */
  lemma EntryStep(n: Node, anc: Ancestry, k: nat, m: Message, n': Node)
    requires NodeOk(n) && Step(n, anc, k, m, n') && m.hd.hash in n'.index
    ensures var h, g1 := m.hd.hash, Announced(n.index, m.hd);
      && (h in n.index || HeaderOk(n.index, m.hd))
      && var e, was := n'.index[h], if h in n.index then n.index[h] else NewEntry(n.index, m.hd);
         && e.pprev == was.pprev
         && (e.dagParents == was.dagParents || e.dagParents == Resolved(g1, m.hd.extra))
  {
    hide DataFor, Blocked, HeaderOk, NewEntry;
    var hd := m.hd;
    var g1 := Announced(n.index, hd);
    if m.BodyMsg? && hd.hash in g1 && hd.hash !in n.taken {
      FilledFrame(g1, hd);
      hide Filled;
      var g := Filled(g1, hd);
      if n' != n.(index := g) {
        var d :| Takes(g, anc, k, hd.hash, d, n, n');
      }
    }
  }

  lemma NewLinks(g: Graph, hd: Header)
    requires HeaderOk(g, hd) && hd.hash != GENESIS
    ensures CleanHeader(hd) && NewEntry(g, hd).pprev == hd.prev
    ensures NewEntry(g, hd).dagParents == KnownOf(g, hd.extra)
  {
  }

  lemma StepLinksAt(n: Node, anc: Ancestry, k: nat, m: Message, n': Node, msgs: seq<Message>)
    requires NodeOk(n) && Step(n, anc, k, m, n') && Proper(msgs) && m in msgs && LinksOk(n.index, msgs)
    requires m.hd.hash in n'.index && m.hd.hash != GENESIS
    ensures LinksAt(n'.index, m.hd.hash, msgs)
  {
    var h, hd, g1 := m.hd.hash, m.hd, Announced(n.index, m.hd);
    EntryStep(n, anc, k, m, n');
    assert ProperHeader(hd);
    if h in n.index {
      assert LinksAt(n.index, h, msgs);
      var m0 :| m0 in msgs && m0.hd.hash == h && m0.hd.prev == n.index[h].pprev && CleanHeader(m0.hd);
      assert m0.hd == hd;
    } else {
      NewLinks(n.index, hd);
    }
    hide Step, NodeOk, HeaderOk, NewEntry, Announced, Proper;
    KnownOnce(n.index, hd.extra);
    KnownOfIn(n.index, hd.extra);
    ResolvedOnce(g1, hd.extra);
    ResolvedIn(g1, hd.extra);
    var e := n'.index[h];
    if e.dagParents == Resolved(g1, hd.extra) || h !in n.index {
      ParentsOnce(e, hd);
    }
  }

  lemma StepLinks(n: Node, anc: Ancestry, k: nat, m: Message, n': Node, msgs: seq<Message>)
    requires NodeOk(n) && Step(n, anc, k, m, n') && Proper(msgs) && m in msgs && LinksOk(n.index, msgs)
    ensures LinksOk(n'.index, msgs)
  {
    assert ProperHeader(m.hd);
    hide Step, NodeOk, Proper;
    forall h | h in n'.index && h != GENESIS
      ensures LinksAt(n'.index, h, msgs)
    {
      if h == m.hd.hash {
        StepLinksAt(n, anc, k, m, n', msgs);
      } else {
        StepEntries(n, anc, k, m, n', h);
        assert LinksAt(n.index, h, msgs);
      }
    }
  }

  /** In every run no entry but the first names a parent twice, however headers and bodies are mixed. */
  lemma {:induction false} RunLinks(ns: seq<Node>, anc: Ancestry, k: nat, msgs: seq<Message>, i: nat, h: Hash)
    requires Run(ns, anc, k, msgs) && Proper(msgs) && i < |ns| && h in ns[i].index && h != GENESIS
    ensures NoRepeats(ns[i].index[h].Parents())
  {
    hide Run, Proper;
    AllLinks(ns, anc, k, msgs, i);
    assert LinksAt(ns[i].index, h, msgs);
  }

  lemma {:induction false} AllLinks(ns: seq<Node>, anc: Ancestry, k: nat, msgs: seq<Message>, i: nat)
    requires Run(ns, anc, k, msgs) && Proper(msgs) && i < |ns|
    ensures LinksOk(ns[i].index, msgs)
  {
    hide Step, Proper;
    if i > 0 {
      AllLinks(ns, anc, k, msgs, i - 1);
      RunOk(ns, anc, k, msgs, i - 1);
      assert Step(ns[i - 1], anc, k, msgs[i - 1], ns[i - 1 + 1]);
      StepLinks(ns[i - 1], anc, k, msgs[i - 1], ns[i], msgs);
    }
  }
}
