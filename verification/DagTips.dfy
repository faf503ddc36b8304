/** The tips of the block DAG, kept in order of score, and how far they are the blocks without children. */
module DagTips {
  import opened Dag

  const KNOWN_SCORES_PRUNE_DEPTH := 1000

  datatype Tip = Tip(score: nat, hash: Hash)

  /** A higher score first, then the smaller hash. */
  predicate Ahead(a: Tip, b: Tip) {
    a.score > b.score || (a.score == b.score && a.hash < b.hash)
  }

  ghost predicate Ordered(s: seq<Tip>) {
    forall i, j :: 0 <= i < j < |s| ==> Ahead(s[i], s[j])
  }

  /** The ordered tips and the scores by hash hold the same pairs. */
  ghost predicate InStep(s: seq<Tip>, scores: map<Hash, nat>) {
    && (forall t :: t in s ==> t.hash in scores && scores[t.hash] == t.score)
    && (forall h :: h in scores ==> Tip(scores[h], h) in s)
  }

  /** The scores of the tips are among the known ones. */
  ghost predicate ScoresKnown(tips: map<Hash, nat>, known: map<Hash, nat>) {
    forall h :: h in tips ==> h in known && known[h] == tips[h]
  }

  /** A known score that is not forgotten when a block of the given score comes in. */
  predicate Lasts(known: map<Hash, nat>, h: Hash, score: nat) {
    h in known && (score <= KNOWN_SCORES_PRUNE_DEPTH || known[h] >= score - KNOWN_SCORES_PRUNE_DEPTH)
  }

  /** The block is a tip and its parents are not; scores far behind are forgotten, but for those of tips. */
  ghost predicate Connects(
    tips: map<Hash, nat>, known: map<Hash, nat>, hash: Hash, score: nat, parents: seq<Hash>, tips': map<Hash, nat>,
    known': map<Hash, nat>)
  {
    && (forall h :: h in tips' <==> h == hash || (h in tips && h !in parents))
    && (forall h :: h in tips' ==> tips'[h] == if h == hash then score else tips[h])
    && (forall h :: h in known' <==> h == hash || Lasts(known, h, score) || (h in known && h in tips && h !in parents))
    && (forall h :: h in known' ==> known'[h] == if h == hash then score else known[h])
  }

  /** The block is no tip; those of its parents whose score is known are. */
  ghost predicate Disconnects(
    tips: map<Hash, nat>, known: map<Hash, nat>, hash: Hash, parents: seq<Hash>, tips': map<Hash, nat>)
  {
    && (forall h :: h in tips' <==> (h in tips && h != hash) || (h in parents && h != NULL && h in known))
    && (forall h :: h in tips' ==> tips'[h] == if h in tips && h != hash then tips[h] else known[h])
  }

  class DagTipSet {
    var scoreToHash: seq<Tip>
    var hashToScore: map<Hash, nat>
    var knownScores: map<Hash, nat>

    ghost predicate Valid()
      reads this
    {
      Ordered(scoreToHash) && InStep(scoreToHash, hashToScore) && ScoresKnown(hashToScore, knownScores)
    }

    constructor ()
      ensures Valid() && hashToScore == map[] && knownScores == map[]
    {
      scoreToHash, hashToScore, knownScores := [], map[], map[];
    }

    /** Makes a block a tip. A tip that is given another score leaves its old pair behind in the order. */
    method InsertTip(hash: Hash, score: nat)
      requires Valid()
      modifies this
      ensures hashToScore == old(hashToScore)[hash := score] && knownScores == old(knownScores)[hash := score]
      ensures Ordered(scoreToHash) && forall t :: t in scoreToHash <==> t in old(scoreToHash) || t == Tip(score, hash)
      ensures Valid() <==> (hash in old(hashToScore) ==> old(hashToScore)[hash] == score)
    {
      var tip := Tip(score, hash);
      ghost var s := scoreToHash;
      if tip !in scoreToHash {
        var i := 0;
        while i < |scoreToHash| && Ahead(scoreToHash[i], tip)
          invariant 0 <= i <= |scoreToHash| && forall k :: 0 <= k < i ==> Ahead(scoreToHash[k], tip)
        {
          i := i + 1;
        }
        Inserted(scoreToHash, tip, i);
        scoreToHash := scoreToHash[..i] + [tip] + scoreToHash[i..];
      }
      hashToScore := hashToScore[hash := score];
      knownScores := knownScores[hash := score];
      StaleIff(s, old(hashToScore), tip, scoreToHash);
    }

    method RemoveTip(hash: Hash)
      requires Valid()
      modifies `scoreToHash, `hashToScore
      ensures Valid() && hashToScore == old(hashToScore) - {hash}
    {
      if hash !in hashToScore {
        assert hashToScore - {hash} == hashToScore;
        return;
      }
      var tip := Tip(hashToScore[hash], hash);
      var i := 0;
      while scoreToHash[i] != tip
        invariant 0 <= i < |scoreToHash| && tip !in scoreToHash[..i]
        decreases |scoreToHash| - i
      {
        assert scoreToHash == scoreToHash[..i + 1] + scoreToHash[i + 1..];
        i := i + 1;
      }
      Removed(scoreToHash, hashToScore, tip, i);
      scoreToHash := scoreToHash[..i] + scoreToHash[i + 1..];
      hashToScore := hashToScore - {hash};
    }

    /** Forgets scores far behind the best, except those of tips. */
    method PruneKnownScores(best: nat)
      modifies `knownScores
      ensures forall h :: h in knownScores <==>
        h in old(knownScores)
        && (best <= KNOWN_SCORES_PRUNE_DEPTH || old(knownScores)[h] >= best - KNOWN_SCORES_PRUNE_DEPTH
          || h in hashToScore)
      ensures forall h :: h in knownScores ==> knownScores[h] == old(knownScores)[h]
    {
      if best <= KNOWN_SCORES_PRUNE_DEPTH {
        return;
      }
      var cutoff := best - KNOWN_SCORES_PRUNE_DEPTH;
      knownScores := map h | h in knownScores && !(knownScores[h] < cutoff && h !in hashToScore) :: knownScores[h];
    }

    /** A new block takes the place of its parents among the tips. */
    method BlockConnected(hash: Hash, score: nat, parents: seq<Hash>)
      requires Valid()
      modifies this
      ensures Valid() <==> (hash in old(hashToScore) && hash !in parents ==> old(hashToScore)[hash] == score)
      ensures Connects(old(hashToScore), old(knownScores), hash, score, parents, hashToScore, knownScores)
    {
      hide Ordered, InStep;
      RemoveTips(parents);
      InsertTip(hash, score);
      PruneKnownScores(score);
      assert ScoresKnown(hashToScore, knownScores);
    }

    method RemoveTips(parents: seq<Hash>)
      requires Valid()
      modifies `scoreToHash, `hashToScore
      ensures Valid() && forall h :: h in hashToScore <==> h in old(hashToScore) && h !in parents
      ensures forall h :: h in hashToScore ==> hashToScore[h] == old(hashToScore)[h]
    {
      hide Ordered, InStep;
      for i := 0 to |parents|
        invariant Valid() && forall h :: h in hashToScore <==> h in old(hashToScore) && h !in parents[..i]
        invariant forall h :: h in hashToScore ==> hashToScore[h] == old(hashToScore)[h]
      {
        assert parents[..i + 1] == parents[..i] + [parents[i]];
        RemoveTip(parents[i]);
      }
      assert parents[..|parents|] == parents;
    }

    /** Takes a block from the tips and makes its parents tips again, where their score is known. */
    method BlockDisconnected(hash: Hash, parents: seq<Hash>)
      requires Valid()
      modifies this
      ensures Valid() && knownScores == old(knownScores)
      ensures Disconnects(old(hashToScore), knownScores, hash, parents, hashToScore)
    {
      RemoveTip(hash);
      for i := 0 to |parents|
        invariant Valid() && knownScores == old(knownScores)
        invariant forall h :: h in hashToScore <==>
          (h in old(hashToScore) && h != hash) || (h in parents[..i] && h != NULL && h in old(knownScores))
        invariant forall h :: h in old(hashToScore) && h != hash ==> hashToScore[h] == old(hashToScore)[h]
      {
        assert parents[..i + 1] == parents[..i] + [parents[i]];
        var p := parents[i];
        if p == NULL || p in hashToScore {
          continue;
        }
        if p in knownScores {
          ghost var known := knownScores;
          InsertTip(p, knownScores[p]);
          assert knownScores == known;
        }
      }
      assert parents[..|parents|] == parents;
    }

    /** The best tips, at most the given number of them. */
    method GetMiningParents(maxParents: nat) returns (r: seq<Hash>)
      requires Valid()
      ensures |r| == if |scoreToHash| < maxParents then |scoreToHash| else maxParents
      ensures forall i :: 0 <= i < |r| ==> r[i] in hashToScore
      ensures forall i, j :: 0 <= i < j < |r| ==> Ahead(Tip(hashToScore[r[i]], r[i]), Tip(hashToScore[r[j]], r[j]))
      ensures forall i, h :: 0 <= i < |r| && h in hashToScore && h !in r ==>
        Ahead(Tip(hashToScore[r[i]], r[i]), Tip(hashToScore[h], h))
    {
      r := [];
      for i := 0 to |scoreToHash|
        invariant |r| == i <= maxParents && forall k :: 0 <= k < i ==> r[k] == scoreToHash[k].hash
      {
        if |r| >= maxParents {
          BestFirst(scoreToHash, hashToScore, r);
          return;
        }
        r := r + [scoreToHash[i].hash];
      }
      BestFirst(scoreToHash, hashToScore, r);
    }
  }

  lemma Inserted(s: seq<Tip>, tip: Tip, i: nat)
    requires Ordered(s) && tip !in s && i <= |s|
    requires (forall k :: 0 <= k < i ==> Ahead(s[k], tip)) && (i < |s| ==> !Ahead(s[i], tip))
    ensures Ordered(s[..i] + [tip] + s[i..]) && forall t :: t in s[..i] + [tip] + s[i..] <==> t == tip || t in s
  {
    assert i < |s| ==> s[i] in s;
    InsertedOrder(s, tip, i);
    assert s == s[..i] + s[i..];
  }

  /** After an insertion order and scores are in step exactly if the block had no other score. */
  lemma StaleIff(s: seq<Tip>, scores: map<Hash, nat>, tip: Tip, r: seq<Tip>)
    requires InStep(s, scores) && forall t :: t in r <==> t in s || t == tip
    ensures InStep(r, scores[tip.hash := tip.score]) <==> (tip.hash in scores ==> scores[tip.hash] == tip.score)
  {
    if tip.hash in scores && scores[tip.hash] != tip.score {
      assert Tip(scores[tip.hash], tip.hash) in r;
    }
  }

  lemma InsertedOrder(s: seq<Tip>, tip: Tip, i: nat)
    requires Ordered(s) && i <= |s| && (forall k :: 0 <= k < i ==> Ahead(s[k], tip)) && (i < |s| ==> Ahead(tip, s[i]))
    ensures Ordered(s[..i] + [tip] + s[i..])
  {
    var r := s[..i] + [tip] + s[i..];
    forall a, b | 0 <= a < b < |r|
      ensures Ahead(r[a], r[b])
    {
      if a < i < b {
        assert Ahead(s[a], s[b - 1]);
      } else if i < a {
        assert Ahead(s[a - 1], s[b - 1]);
      } else if a == i {
        assert b - 1 > i ==> Ahead(s[i], s[b - 1]);
      }
    }
  }

  lemma Removed(s: seq<Tip>, scores: map<Hash, nat>, tip: Tip, i: nat)
    requires Ordered(s) && InStep(s, scores) && i < |s| && s[i] == tip
    ensures Ordered(s[..i] + s[i + 1..]) && InStep(s[..i] + s[i + 1..], scores - {tip.hash})
  {
    var r := s[..i] + s[i + 1..];
    assert s == s[..i] + [tip] + s[i + 1..];
    assert tip !in r;
    assert forall t :: t in r <==> t in s && t != tip;
  }

  lemma BestFirst(s: seq<Tip>, scores: map<Hash, nat>, r: seq<Hash>)
    requires Ordered(s) && InStep(s, scores) && |r| <= |s| && forall k :: 0 <= k < |r| ==> r[k] == s[k].hash
    ensures forall i :: 0 <= i < |r| ==> r[i] in scores
    ensures forall i, j :: 0 <= i < j < |r| ==> Ahead(Tip(scores[r[i]], r[i]), Tip(scores[r[j]], r[j]))
    ensures forall i, h :: 0 <= i < |r| && h in scores && h !in r ==> Ahead(Tip(scores[r[i]], r[i]), Tip(scores[h], h))
  {
    forall i | 0 <= i < |r|
      ensures r[i] in scores && Tip(scores[r[i]], r[i]) == s[i]
    {
      assert s[i] in s;
    }
    assert forall k :: 0 <= k < |r| ==> s[k].hash == r[k] && r[k] in r;
    forall i, h | 0 <= i < |r| && h in scores && h !in r
      ensures Ahead(Tip(scores[r[i]], r[i]), Tip(scores[h], h))
    {
      var j :| 0 <= j < |s| && s[j] == Tip(scores[h], h);
      assert |r| <= j;
    }
  }

  // ---------- tips and children ----------

  /** Connected blocks with their parents, all connected too, none its own parent. */
  ghost predicate Connected(conn: map<Hash, seq<Hash>>) {
    NULL !in conn && forall c, i :: c in conn && 0 <= i < |conn[c]| ==> conn[c][i] in conn && conn[c][i] != c
  }

  ghost predicate HasChild(conn: map<Hash, seq<Hash>>, h: Hash) {
    exists c :: c in conn && h in conn[c]
  }

  /** The tips are the connected blocks without children. */
  ghost predicate TipsRight(tips: map<Hash, nat>, conn: map<Hash, seq<Hash>>) {
    forall h :: h in tips <==> h in conn && !HasChild(conn, h)
  }

  /**
   Disconnecting a tip leaves the tips right exactly when its parents' scores are known
   for just those parents that have no other child.
   */
  lemma DisconnectIff(
    tips: map<Hash, nat>, tips': map<Hash, nat>, known: map<Hash, nat>, conn: map<Hash, seq<Hash>>, hash: Hash)
    requires Connected(conn) && TipsRight(tips, conn) && hash in tips
    requires Disconnects(tips, known, hash, conn[hash], tips')
    ensures TipsRight(tips', conn - {hash}) <==>
      forall p :: p in conn[hash] ==> (p in known <==> !HasChild(conn - {hash}, p))
  {
    var conn', parents := conn - {hash}, conn[hash];
    forall h
      ensures HasChild(conn, h) <==> HasChild(conn', h) || h in parents
    {
      if HasChild(conn', h) {
        var c :| c in conn' && h in conn'[c];
        assert c in conn && h in conn[c];
      }
      if HasChild(conn, h) {
        var c :| c in conn && h in conn[c];
        assert c != hash ==> c in conn' && h in conn'[c];
      }
    }
    forall p | p in parents
      ensures p in conn' && p !in tips && p != NULL && (p in tips' <==> p in known)
    {
      assert HasChild(conn, p);
    }
    if TipsRight(tips', conn') {
      forall p | p in parents
        ensures p in known <==> !HasChild(conn', p)
      {
        assert p in tips' <==> p in conn' && !HasChild(conn', p);
      }
    }
  }

  /**
   Connecting a block and disconnecting it gives back the tips exactly when it was no tip before,
   unless it names itself, and its parents were tips just where their scores are known and last.
   */
  lemma ConnectDisconnectIff(
    tips: map<Hash, nat>, known: map<Hash, nat>, hash: Hash, score: nat, parents: seq<Hash>, tips1: map<Hash, nat>,
    known1: map<Hash, nat>, tips2: map<Hash, nat>)
    requires ScoresKnown(tips, known) && Connects(tips, known, hash, score, parents, tips1, known1)
    requires Disconnects(tips1, known1, hash, parents, tips2)
    ensures tips2 == tips <==>
      && (if hash in parents && hash != NULL then hash in tips && tips[hash] == score else hash !in tips)
      && forall p :: p in parents && p != hash ==> (p in tips <==> p != NULL && Lasts(known, p, score))
  {
    forall h | h != hash
      ensures h !in parents ==> (h in tips2 <==> h in tips)
      ensures h in parents ==> (h in tips2 <==> h != NULL && Lasts(known, h, score))
      ensures h in tips2 && h in tips ==> tips2[h] == tips[h]
    {
    }
    assert hash in tips2 <==> hash in parents && hash != NULL;
    assert hash in tips2 ==> tips2[hash] == score;
    if tips2 == tips {
      forall p | p in parents && p != hash
        ensures p in tips <==> p != NULL && Lasts(known, p, score)
      {
        assert p in tips2 <==> p in tips;
      }
    }
  }

  /** A block with two children becomes a tip again when one of them goes. */
  lemma SharedParentReturns()
    ensures var conn := map[1 := [], 2 := [1], 3 := [1]];
      var tips := map[2 := 1, 3 := 1];
      var after := map[2 := 1, 1 := 0];
      && Connected(conn) && TipsRight(tips, conn) && !TipsRight(after, conn - {3})
      && Disconnects(tips, map[1 := 0, 2 := 1, 3 := 1], 3, conn[3], after)
  {
    var conn: map<Hash, seq<Hash>> := map[1 := [], 2 := [1], 3 := [1]];
    assert 2 in conn && 1 in conn[2];
    assert HasChild(conn, 1);
    assert !HasChild(conn, 2) && !HasChild(conn, 3);
    var after: map<Hash, nat> := map[2 := 1, 1 := 0];
    assert HasChild(conn - {3}, 1) by {
      assert 2 in conn - {3} && 1 in (conn - {3})[2];
    }
    assert 1 in after;
  }

  /** A block as it is connected. */
  datatype Joined = Joined(hash: Hash, score: nat, parents: seq<Hash>)

  ghost predicate LaterChild(blocks: seq<Joined>, i: nat)
    requires i < |blocks|
  {
    exists j :: i < j < |blocks| && blocks[i].hash in blocks[j].parents
  }

  ghost predicate AnyChild(blocks: seq<Joined>, i: nat)
    requires i < |blocks|
  {
    exists j :: 0 <= j < |blocks| && blocks[i].hash in blocks[j].parents
  }

  /** The tips are the blocks without a child connected after them. */
  ghost predicate TipsAre(tips: map<Hash, nat>, blocks: seq<Joined>) {
    forall h :: h in tips <==> exists i :: 0 <= i < |blocks| && blocks[i].hash == h && !LaterChild(blocks, i)
  }

  /** The tips are the blocks without a child. */
  ghost predicate TipsChildless(tips: map<Hash, nat>, blocks: seq<Joined>) {
    forall h :: h in tips <==> exists i :: 0 <= i < |blocks| && blocks[i].hash == h && !AnyChild(blocks, i)
  }

  /** Every block that has a child has one that was connected after it. */
  ghost predicate ChildFollows(blocks: seq<Joined>) {
    forall i :: 0 <= i < |blocks| && AnyChild(blocks, i) ==> LaterChild(blocks, i)
  }

  predicate Once(blocks: seq<Joined>) {
    forall i, j :: 0 <= i < j < |blocks| ==> blocks[i].hash != blocks[j].hash
  }

  lemma LaterGrows(blocks: seq<Joined>, b: Joined, i: nat)
    requires i < |blocks|
    ensures LaterChild(blocks + [b], i) <==> LaterChild(blocks, i) || blocks[i].hash in b.parents
  {
    var all := blocks + [b];
    if LaterChild(blocks, i) {
      var j :| i < j < |blocks| && blocks[i].hash in blocks[j].parents;
      assert all[i].hash in all[j].parents;
    }
    if blocks[i].hash in b.parents {
      assert all[i].hash in all[|blocks|].parents;
    }
  }

  lemma ConnectOne(tips: map<Hash, nat>, tips': map<Hash, nat>, blocks: seq<Joined>, b: Joined)
    requires TipsAre(tips, blocks) && Once(blocks + [b])
    requires forall h :: h in tips' <==> h == b.hash || (h in tips && h !in b.parents)
    ensures TipsAre(tips', blocks + [b])
  {
    var all := blocks + [b];
    forall h
      ensures h in tips' <==> exists i :: 0 <= i < |all| && all[i].hash == h && !LaterChild(all, i)
    {
      if h == b.hash {
        assert all[|blocks|].hash == h && !LaterChild(all, |blocks|);
      } else {
        if h in tips' {
          var i :| 0 <= i < |blocks| && blocks[i].hash == h && !LaterChild(blocks, i);
          LaterGrows(blocks, b, i);
          assert all[i].hash == h && !LaterChild(all, i);
        }
        if i :| 0 <= i < |all| && all[i].hash == h && !LaterChild(all, i) {
          LaterGrows(blocks, b, i);
          assert blocks[i].hash == h && !LaterChild(blocks, i);
        }
      }
    }
  }

  lemma ChildlessIff(tips: map<Hash, nat>, blocks: seq<Joined>)
    requires TipsAre(tips, blocks) && Once(blocks)
    ensures TipsChildless(tips, blocks) <==> ChildFollows(blocks)
  {
    forall i | 0 <= i < |blocks|
      ensures LaterChild(blocks, i) ==> AnyChild(blocks, i)
      ensures blocks[i].hash in tips <==> !LaterChild(blocks, i)
    {
      OneBlock(tips, blocks, i);
    }
    if TipsChildless(tips, blocks) {
      forall i | 0 <= i < |blocks| && AnyChild(blocks, i)
        ensures LaterChild(blocks, i)
      {
        assert blocks[i].hash !in tips;
      }
    }
  }

  lemma OneBlock(tips: map<Hash, nat>, blocks: seq<Joined>, i: nat)
    requires TipsAre(tips, blocks) && Once(blocks) && i < |blocks|
    ensures LaterChild(blocks, i) ==> AnyChild(blocks, i)
    ensures blocks[i].hash in tips <==> !LaterChild(blocks, i)
  {
  }

  /** No block is connected after a child of it, and none is its own child. */
  ghost predicate ChildrenAfter(blocks: seq<Joined>) {
    forall i, j :: 0 <= j <= i < |blocks| ==> blocks[i].hash !in blocks[j].parents
  }

  lemma SomeTips(blocks: seq<Joined>) returns (tips: map<Hash, nat>)
    ensures TipsAre(tips, blocks)
  {
    var hashes := set i | 0 <= i < |blocks| :: blocks[i].hash;
    tips := map h | h in hashes && exists i :: 0 <= i < |blocks| && blocks[i].hash == h && !LaterChild(blocks, i) :: 0;
    forall i | 0 <= i < |blocks|
      ensures blocks[i].hash in hashes
    {
    }
  }

  /** The tips are the childless blocks after every block exactly if no block is connected after a child of it. */
  lemma ThroughoutIff(blocks: seq<Joined>)
    requires Once(blocks)
    ensures (forall n, tips :: 0 <= n <= |blocks| && TipsAre(tips, blocks[..n]) ==> TipsChildless(tips, blocks[..n]))
       <==> ChildrenAfter(blocks)
  {
    hide TipsAre, TipsChildless;
    if ChildrenAfter(blocks) {
      forall n, tips | 0 <= n <= |blocks| && TipsAre(tips, blocks[..n])
        ensures TipsChildless(tips, blocks[..n])
      {
        ChildlessIff(tips, blocks[..n]);
      }
    } else {
      var i, j :| 0 <= j <= i < |blocks| && blocks[i].hash in blocks[j].parents;
      var some := blocks[..i + 1];
      assert some[i].hash in some[j].parents && AnyChild(some, i) && !LaterChild(some, i);
      var tips := SomeTips(some);
      ChildlessIff(tips, some);
    }
  }

  /** Three blocks in a row, connected as 1, 3, 2: the second is a tip although it has a child. */
  lemma LateParentTip(tips: map<Hash, nat>)
    requires TipsAre(tips, [Joined(1, 0, []), Joined(3, 1, [2]), Joined(2, 1, [1])])
    ensures 2 in tips && !TipsChildless(tips, [Joined(1, 0, []), Joined(3, 1, [2]), Joined(2, 1, [1])])
  {
    var blocks := [Joined(1, 0, []), Joined(3, 1, [2]), Joined(2, 1, [1])];
    assert blocks[2].hash == 2 && !LaterChild(blocks, 2);
    assert blocks[2].hash in blocks[1].parents;
    assert AnyChild(blocks, 2);
  }

  /**
   Connects blocks in any order, each once. The tips are then those without a later child, and are
   the childless blocks exactly if every block with a child has one connected after it.
   */
  method ConnectAll(blocks: seq<Joined>) returns (t: DagTipSet)
    requires Once(blocks)
    ensures fresh(t) && t.Valid() && TipsAre(t.hashToScore, blocks)
    ensures TipsChildless(t.hashToScore, blocks) <==> ChildFollows(blocks)
  {
    t := new DagTipSet();
    assert blocks[..0] == [];
    for i := 0 to |blocks|
      invariant fresh(t) && t.Valid() && TipsAre(t.hashToScore, blocks[..i])
    {
      var b := blocks[i];
      assert blocks[..i + 1] == blocks[..i] + [b];
      NotYet(t.hashToScore, blocks, i);
      ghost var tips := t.hashToScore;
      t.BlockConnected(b.hash, b.score, b.parents);
      ConnectOne(tips, t.hashToScore, blocks[..i], b);
    }
    assert blocks[..|blocks|] == blocks;
    ChildlessIff(t.hashToScore, blocks);
  }

  lemma NotYet(tips: map<Hash, nat>, blocks: seq<Joined>, i: nat)
    requires Once(blocks) && i < |blocks| && TipsAre(tips, blocks[..i])
    ensures blocks[i].hash !in tips
  {
  }
}
