/**
 GHOSTDAG data depends on nothing but a block's past, for every ancestor test that does:
 data that is right in one graph is right in every other graph with the same past.
 */
module DagAgreement {
  import opened Dag
  import opened Mergeset
  import opened Ghostdag

  ghost predicate AgreeAll(g1: Graph, g2: Graph, s: seq<Hash>) {
    forall i :: 0 <= i < |s| ==> Agree(g1, g2, s[i])
  }

  lemma AgreeAt(g1: Graph, g2: Graph, s: seq<Hash>, x: Hash)
    requires AgreeAll(g1, g2, s) && x in s
    ensures Agree(g1, g2, x) && x in g1 && x in g2 && g1[x] == g2[x]
  {
    AgreeHere(g1, g2, x);
  }

  lemma AgreeAllBack(g1: Graph, g2: Graph, s: seq<Hash>)
    requires Linked(g1) && AgreeAll(g1, g2, s)
    ensures AgreeAll(g2, g1, s)
  {
    forall i | 0 <= i < |s|
      ensures Agree(g2, g1, s[i])
    {
      AgreeBack(g1, g2, s[i]);
    }
  }

  // ---------- the same counts and colours ----------

  lemma {:induction false} AntiConeSame(g1: Graph, g2: Graph, anc: Ancestry, c: Hash, s: seq<Hash>)
    requires PastOnly(anc) && Linked(g1) && Linked(g2) && Agree(g1, g2, c) && AgreeAll(g1, g2, s)
    ensures AntiCone(g1, anc, c, s) == AntiCone(g2, anc, c, s)
  {
    hide Agree, Linked;
    if s != [] {
      AntiConeSame(g1, g2, anc, c, s[..|s| - 1]);
    }
  }

  lemma {:induction false} ClassifiedSame(
    g1: Graph, g2: Graph, anc: Ancestry, k: nat, inherited: seq<Hash>, mergeset: seq<Hash>)
    requires PastOnly(anc) && Linked(g1) && Linked(g2) && AgreeAll(g1, g2, inherited) && AgreeAll(g1, g2, mergeset)
    ensures Classified(g1, anc, k, inherited, mergeset) == Classified(g2, anc, k, inherited, mergeset)
    ensures AgreeAll(g1, g2, Classified(g1, anc, k, inherited, mergeset).blues)
  {
    hide Agree, AntiCone, Linked, PastOnly;
    if mergeset != [] {
      var n := |mergeset| - 1;
      ClassifiedSame(g1, g2, anc, k, inherited, mergeset[..n]);
      AntiConeSame(g1, g2, anc, mergeset[n], inherited + Classified(g1, anc, k, inherited, mergeset[..n]).blues);
    }
  }

  lemma {:induction false} ChainSame(g1: Graph, g2: Graph, h: Hash, n: nat)
    requires Linked(g1) && Linked(g2) && Agree(g1, g2, h)
    ensures Chain(g1, h, n) == Chain(g2, h, n) && AgreeAll(g1, g2, Chain(g1, h, n))
    decreases n
  {
    AgreeHere(g1, g2, h);
    if n > 0 {
      SelectedKnown(g1, h);
      var s := g1[h].data.selectedParent;
      hide Agree, Linked, Reaches;
      if s != NULL {
        AgreeBelow(g1, g2, s, h);
        ChainSame(g1, g2, s, n - 1);
      }
    }
  }

  // ---------- the same mergeset ----------

  /** Everything the search meets is in the past of a parent, where the graphs agree. */
  lemma MetAgrees(g1: Graph, g2: Graph, anc: Ancestry, parents: seq<Hash>, sp: Hash, x: Hash)
    requires AgreeAll(g1, g2, parents) && Met(g1, anc, parents, sp, x)
    ensures Agree(g1, g2, x)
  {
    MetInPast(g1, anc, parents, sp, x);
    var i :| 0 <= i < |parents| && Reaches(g1, x, parents[i]);
    AgreeBelow(g1, g2, x, parents[i]);
  }

  lemma MetOver(g1: Graph, g2: Graph, anc: Ancestry, parents: seq<Hash>, sp: Hash, x: Hash)
    requires PastOnly(anc) && Linked(g1) && Linked(g2) && AgreeAll(g1, g2, parents) && sp in parents
    requires Met(g1, anc, parents, sp, x)
    ensures Met(g2, anc, parents, sp, x)
  {
    AgreeAt(g1, g2, parents, sp);
    var s :| Leads(g1, anc, parents, sp, x, s);
    var j :| 0 <= j < |parents| && parents[j] == s[0];
    assert Joins(g1, s, parents[j], x);
    forall i | 0 <= i < |s|
      ensures s[i] in g2 && g1[s[i]] == g2[s[i]]
      ensures anc(g1, s[i], sp) == anc(g2, s[i], sp)
    {
      OnTheWay(g1, s, parents[j], x, i);
    }
    assert Leads(g2, anc, parents, sp, x, s);
  }

  lemma CollectedSame(g1: Graph, g2: Graph, anc: Ancestry, parents: seq<Hash>, sp: Hash, x: Hash)
    requires PastOnly(anc) && Linked(g1) && Linked(g2) && AgreeAll(g1, g2, parents) && sp in parents
    ensures Collected(g1, anc, parents, sp, x) <==> Collected(g2, anc, parents, sp, x)
  {
    AgreeAt(g1, g2, parents, sp);
    assert anc(g1, x, sp) == anc(g2, x, sp);
    hide Met, Agree, Linked, PastOnly;
    if Met(g1, anc, parents, sp, x) {
      MetOver(g1, g2, anc, parents, sp, x);
    } else if Met(g2, anc, parents, sp, x) {
      AgreeAllBack(g1, g2, parents);
      MetOver(g2, g1, anc, parents, sp, x);
    }
  }

  lemma TooManySame(g1: Graph, g2: Graph, anc: Ancestry, parents: seq<Hash>, sp: Hash)
    requires PastOnly(anc) && Linked(g1) && Linked(g2) && AgreeAll(g1, g2, parents) && sp in parents
    ensures TooMany(g1, anc, parents, sp) <==> TooMany(g2, anc, parents, sp)
  {
    AgreeAt(g1, g2, parents, sp);
    forall x
      ensures anc(g1, x, sp) == anc(g2, x, sp)
      ensures Collected(g1, anc, parents, sp, x) <==> Collected(g2, anc, parents, sp, x)
    {
      CollectedSame(g1, g2, anc, parents, sp, x);
    }
    hide Collected, Linked, Agree, NoRepeats, PastOnly;
    forall s
      ensures Overfull(g1, anc, parents, sp, s) <==> Overfull(g2, anc, parents, sp, s)
    {
    }
  }

  lemma SameScores(g1: Graph, g2: Graph, s: seq<Hash>)
    requires AgreeAll(g1, g2, s)
    ensures forall x :: x in s ==> x in g1 && x in g2 && g1[x] == g2[x] && Score(g1, x) == Score(g2, x)
  {
    forall x | x in s
      ensures x in g1 && x in g2 && g1[x] == g2[x] && Score(g1, x) == Score(g2, x)
    {
      AgreeAt(g1, g2, s, x);
    }
  }

  lemma BestSame(g1: Graph, g2: Graph, parents: seq<Hash>, sp: Hash)
    requires AgreeAll(g1, g2, parents) && IsBest(g1, parents, sp)
    ensures IsBest(g2, parents, sp)
  {
    SameScores(g1, g2, parents);
  }

  lemma {:induction false} SameWork(g1: Graph, g2: Graph, s: seq<Hash>)
    requires AgreeAll(g1, g2, s)
    ensures WorkOf(g1, s) == WorkOf(g2, s)
  {
    hide Agree;
    if s != [] {
      SameWork(g1, g2, s[..|s| - 1]);
      AgreeHere(g1, g2, s[|s| - 1]);
    }
  }

  lemma SameAscending(g1: Graph, g2: Graph, s: seq<Hash>)
    requires AgreeAll(g1, g2, s) && Ascending(g1, s)
    ensures Ascending(g2, s)
  {
    SameScores(g1, g2, s);
    hide Agree;
    assert forall i :: 0 <= i < |s| ==> s[i] in s;
  }

  lemma TransferColours(
    g1: Graph, g2: Graph, anc: Ancestry, k: nat, parents: seq<Hash>, d: GhostdagData, mergeset: seq<Hash>)
    requires PastOnly(anc) && Linked(g1) && Linked(g2) && AgreeAll(g1, g2, parents)
    requires d.selectedParent in parents && Colours(g1, anc, k, parents, d, mergeset)
    ensures Colours(g2, anc, k, parents, d, mergeset) && AgreeAll(g1, g2, d.blues)
  {
    var sp := d.selectedParent;
    hide Linked, Agree, Classified, Chain, PastOnly, Met;
    AgreeAt(g1, g2, parents, sp);
    ChainSame(g1, g2, sp, 2 * k + 1);
    forall i | 0 <= i < |mergeset|
      ensures Agree(g1, g2, mergeset[i])
    {
      assert mergeset[i] in mergeset;
      MetAgrees(g1, g2, anc, parents, sp, mergeset[i]);
    }
    ClassifiedSame(g1, g2, anc, k, Chain(g1, sp, 2 * k + 1), mergeset);
    SameAscending(g1, g2, mergeset);
    forall x
      ensures x in mergeset <==> Collected(g2, anc, parents, sp, x)
    {
      CollectedSame(g1, g2, anc, parents, sp, x);
    }
  }

  /** Data that is right in one graph is right in any other with the same past. */
  lemma Transfer(g1: Graph, g2: Graph, anc: Ancestry, k: nat, parents: seq<Hash>, d: GhostdagData)
    requires PastOnly(anc) && Linked(g1) && Linked(g2) && AgreeAll(g1, g2, parents) && DataFor(g1, anc, k, parents, d)
    ensures DataFor(g2, anc, k, parents, d)
  {
    hide Linked, Agree, PastOnly, TooMany, Colours, IsBest, WorkOf, AgreeAll;
    if parents != [] {
      BestIsParent(g1, parents, d.selectedParent);
      var mergeset :| Colours(g1, anc, k, parents, d, mergeset);
      TransferColours(g1, g2, anc, k, parents, d, mergeset);
      TooManySame(g1, g2, anc, parents, d.selectedParent);
      BestSame(g1, g2, parents, d.selectedParent);
      AgreeAt(g1, g2, parents, d.selectedParent);
      SameWork(g1, g2, d.blues);
    }
  }

  /** Whether a block is turned away for its size depends on its past alone. */
  lemma BlockedSame(g1: Graph, g2: Graph, anc: Ancestry, parents: seq<Hash>)
    requires PastOnly(anc) && Linked(g1) && Linked(g2) && AgreeAll(g1, g2, parents) && Blocked(g1, anc, parents)
    ensures Blocked(g2, anc, parents)
  {
    hide Linked, Agree, PastOnly, TooMany, IsBest;
    var sp :| IsBest(g1, parents, sp) && TooMany(g1, anc, parents, sp);
    BestSame(g1, g2, parents, sp);
    BestIsParent(g1, parents, sp);
    TooManySame(g1, g2, anc, parents, sp);
  }

  lemma BestIsParent(g: Graph, parents: seq<Hash>, sp: Hash)
    requires IsBest(g, parents, sp)
    ensures sp in parents && sp in g
  {
  }

  // ---------- one answer ----------

  lemma BeforeStrict(g: Graph, s: seq<Hash>)
    requires Ascending(g, s)
    ensures NoRepeats(s)
  {
  }

  lemma BeforeOneWay(g: Graph, a: Hash, b: Hash)
    ensures !(Before(g, a, b) && Before(g, b, a))
  {
  }

  /** Ascending lists of the same blocks are the same list. */
  lemma {:induction false} AscendingUnique(g: Graph, s: seq<Hash>, t: seq<Hash>)
    requires Ascending(g, s) && Ascending(g, t) && forall x :: x in s <==> x in t
    ensures s == t
    decreases |s|
  {
    hide Before;
    BeforeStrict(g, s);
    BeforeStrict(g, t);
    assert |t| > 0 ==> t[0] in t;
    if s != [] {
      assert s[|s| - 1] in t;
      BeforeOneWay(g, s[|s| - 1], t[|t| - 1]);
      var a, b := s[|s| - 1], t[|t| - 1];
      assert a in s && b in t && a in t && b in s;
      assert a == b;
      var s', t' := s[..|s| - 1], t[..|t| - 1];
      assert s == s' + [a] && t == t' + [b];
      assert a !in s' && b !in t';
      forall x
        ensures x in s' <==> x in t'
      {
        assert x in s <==> x in s' || x == a;
        assert x in t <==> x in t' || x == b;
      }
      AscendingUnique(g, s', t');
    }
  }

  lemma ColoursUnique(
    g: Graph, anc: Ancestry, k: nat, parents: seq<Hash>, d: GhostdagData, e: GhostdagData, m: seq<Hash>, n: seq<Hash>)
    requires d.selectedParent == e.selectedParent && Colours(g, anc, k, parents, d, m)
    requires Colours(g, anc, k, parents, e, n)
    ensures d.blues == e.blues && d.reds == e.reds
  {
    hide Collected, Classified, Chain, Ascending;
    AscendingUnique(g, m, n);
  }

  /** A block's parents leave no choice of its data. */
  lemma DataUnique(g: Graph, anc: Ancestry, k: nat, parents: seq<Hash>, d: GhostdagData, e: GhostdagData)
    requires DataFor(g, anc, k, parents, d) && DataFor(g, anc, k, parents, e)
    ensures d == e
  {
    hide Colours, Better, WorkOf, TooMany, IsBest;
    if parents != [] {
      BestUnique(g, parents, d.selectedParent, e.selectedParent);
      var m :| Colours(g, anc, k, parents, d, m);
      var n :| Colours(g, anc, k, parents, e, n);
      ColoursUnique(g, anc, k, parents, d, e, m, n);
    }
  }

  /** A block with one parent merges nothing. */
  lemma OneParent(g: Graph, anc: Ancestry, k: nat, p: Hash, d: GhostdagData)
    requires DataFor(g, anc, k, [p], d)
    ensures p in g && d == GhostdagData(Score(g, p) + 1, p, [], [], g[p].data.blueWork % MOD64)
  {
    assert d.selectedParent == p;
    var mergeset :| Colours(g, anc, k, [p], d, mergeset);
    assert |mergeset| > 0 ==> mergeset[0] in mergeset;
    forall x
      ensures !Met(g, anc, [p], p, x)
    {
      NothingBeside(g, anc, p, x);
    }
    hide Met, Chain;
    assert mergeset == [];
  }

  lemma NothingBeside(g: Graph, anc: Ancestry, p: Hash, x: Hash)
    ensures !Met(g, anc, [p], p, x)
  {
  }
}
