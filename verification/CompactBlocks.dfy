/**
 Compact block relay: a block sent as short transaction ids is rebuilt from the
 receiver's own transactions and the ones it asks for.
 */
module CompactBlocks {
  import opened Wrappers

  /** A transaction with its witness hash. */
  datatype Tx = Tx(wtxid: nat, isNull: bool, payload: nat)

  datatype Header = NullHeader | Header(id: nat)

  type Uint16 = x: int | 0 <= x <= 0xffff

  /** A transaction sent along, placed `index` slots after the slot that follows the previous one. */
  datatype Prefilled = Prefilled(index: Uint16, tx: Tx)

  datatype CompactBlock = CompactBlock(header: Header, shortids: seq<nat>, prefilled: seq<Prefilled>) {
    function BlockTxCount(): nat { |shortids| + |prefilled| }
  }

  datatype ReadStatus = Ok | Invalid | Failed | CheckBlockFailed

  /** MAX_BLOCK_WEIGHT / MIN_SERIALIZABLE_TRANSACTION_WEIGHT. */
  const MAX_TX_COUNT := 4000000 / 40

  // ---------- empty slots and their ranks ----------

  function CountNone(s: seq<Option<Tx>>): nat {
    if s == [] then 0 else CountNone(s[..|s| - 1]) + if s[|s| - 1].None? then 1 else 0
  }

  /** How many empty slots come before a position. */
  function Rank(s: seq<Option<Tx>>, p: nat): nat
    requires p <= |s|
  {
    CountNone(s[..p])
  }

  lemma RankStep(s: seq<Option<Tx>>, p: nat)
    requires p < |s|
    ensures Rank(s, p + 1) == Rank(s, p) + if s[p].None? then 1 else 0
    ensures Rank(s, 0) == 0 && Rank(s, |s|) == CountNone(s)
  {
    assert s[..p + 1][..p] == s[..p];
    assert s[..|s|] == s;
  }

  lemma {:induction false} RankMonotone(s: seq<Option<Tx>>, p: nat, q: nat)
    requires p <= q <= |s|
    ensures Rank(s, p) <= Rank(s, q)
    ensures p < q && s[p].None? ==> Rank(s, p) < Rank(s, q)
  {
    if p < q {
      RankMonotone(s, p, q - 1);
      RankStep(s, q - 1);
    }
  }

  /** Every rank below the number of empty slots is taken by an empty slot. */
  lemma RankBelow(s: seq<Option<Tx>>, p: nat)
    requires p < |s| && s[p].None?
    ensures Rank(s, p) < CountNone(s)
  {
    RankMonotone(s, p, |s|);
    RankStep(s, p);
  }

  lemma {:induction false} CountNoneFilled(s: seq<Option<Tx>>, p: nat, tx: Tx)
    requires p < |s| && s[p].None?
    ensures CountNone(s[p := Some(tx)]) == CountNone(s) - 1
  {
    var n := |s| - 1;
    var t := s[p := Some(tx)];
    if p == n {
      assert t[..n] == s[..n];
    } else {
      CountNoneFilled(s[..n], p, tx);
      assert t[..n] == s[..n][p := Some(tx)];
    }
  }

  // ---------- placing the prefilled transactions ----------

  /** The position of the last of the first `n` prefilled transactions. */
  function Pos(pre: seq<Prefilled>, n: nat): int
    requires n <= |pre|
  {
    if n == 0 then -1 else Pos(pre, n - 1) + pre[n - 1].index + 1
  }

  /** The position of a prefilled transaction. */
  function PosOf(c: CompactBlock, i: nat): (p: nat)
    requires i < |c.prefilled|
  {
    PosRises(c.prefilled, i + 1, i + 1);
    Pos(c.prefilled, i + 1)
  }

  /** A prefilled transaction that exists, at a 16-bit position that leaves no gap nothing could fill. */
  predicate PrefillOk(c: CompactBlock, i: nat)
    requires i < |c.prefilled|
  {
    !c.prefilled[i].tx.isNull && PosOf(c, i) <= 0xffff && PosOf(c, i) <= |c.shortids| + i
  }

  predicate PrefillsOk(c: CompactBlock, n: nat)
    requires n <= |c.prefilled|
  {
    forall i :: 0 <= i < n ==> PrefillOk(c, i)
  }

  predicate Acceptable(c: CompactBlock) {
    c.header.Header? && 0 < c.BlockTxCount() <= MAX_TX_COUNT
  }

  lemma {:induction false} PosRises(pre: seq<Prefilled>, m: nat, n: nat)
    requires m <= n <= |pre|
    ensures Pos(pre, m) <= Pos(pre, n) && (m < n ==> Pos(pre, m) < Pos(pre, n))
    ensures Pos(pre, n) >= n - 1
    decreases n
  {
    if n > 0 {
      PosRises(pre, if m < n then m else n - 1, n - 1);
    }
  }

  /** The slots after placing the first `n` prefilled transactions. */
  function Layout(c: CompactBlock, n: nat): (s: seq<Option<Tx>>)
    requires n <= |c.prefilled| && PrefillsOk(c, n)
    ensures |s| == c.BlockTxCount()
  {
    if n == 0 then seq(c.BlockTxCount(), _ => None)
    else
      assert PrefillOk(c, n - 1);
      Layout(c, n - 1)[PosOf(c, n - 1) := Some(c.prefilled[n - 1].tx)]
  }

  lemma {:induction false} AllNone(s: seq<Option<Tx>>)
    requires forall p :: 0 <= p < |s| ==> s[p].None?
    ensures CountNone(s) == |s|
  {
    if s != [] {
      AllNone(s[..|s| - 1]);
    }
  }

  /** No slot beyond the last placed transaction is filled. */
  lemma {:induction false} LayoutTail(c: CompactBlock, n: nat, p: nat)
    requires n <= |c.prefilled| && PrefillsOk(c, n) && Pos(c.prefilled, n) < p < c.BlockTxCount()
    ensures Layout(c, n)[p].None?
  {
    if n > 0 {
      PosRises(c.prefilled, n - 1, n);
      LayoutTail(c, n - 1, p);
    }
  }

  /** Placing transactions leaves a slot for every short id. */
  lemma {:induction false} LayoutCount(c: CompactBlock, n: nat)
    requires n <= |c.prefilled| && PrefillsOk(c, n)
    ensures CountNone(Layout(c, n)) == c.BlockTxCount() - n
  {
    if n == 0 {
      AllNone(Layout(c, 0));
    } else {
      LayoutCount(c, n - 1);
      PosRises(c.prefilled, n - 1, n);
      assert PrefillOk(c, n - 1);
      LayoutTail(c, n - 1, PosOf(c, n - 1));
      CountNoneFilled(Layout(c, n - 1), PosOf(c, n - 1), c.prefilled[n - 1].tx);
    }
  }

  /** Exactly the positions of the prefilled transactions are filled, each with its own. */
  lemma {:induction false} LayoutAt(c: CompactBlock, n: nat, p: nat)
    requires n <= |c.prefilled| && PrefillsOk(c, n) && p < c.BlockTxCount()
    ensures Layout(c, n)[p].Some? <==> exists i :: 0 <= i < n && PosOf(c, i) == p
    ensures forall i :: 0 <= i < n && PosOf(c, i) == p ==> Layout(c, n)[p] == Some(c.prefilled[i].tx)
  {
    if n > 0 {
      LayoutAt(c, n - 1, p);
      forall i | 0 <= i < n - 1
        ensures PosOf(c, i) < PosOf(c, n - 1)
      {
        PosRises(c.prefilled, i + 1, n);
      }
    }
  }

  // ---------- giving slots to short ids ----------

  predicate Distinct(ids: seq<nat>) {
    forall i, j :: 0 <= i < j < |ids| ==> ids[i] != ids[j]
  }

  /** The id map sends the i-th short id to the i-th free slot and holds nothing else, up to position `q`. */
  ghost predicate AssignedTo(ids: map<nat, nat>, shortids: seq<nat>, s: seq<Option<Tx>>, q: nat) {
    && q <= |s| && Rank(s, q) <= |shortids|
    && (forall p :: 0 <= p < q && s[p].None? ==> Rank(s, p) < |shortids| && SlotGiven(ids, shortids[Rank(s, p)], p))
    && (forall id :: id in ids ==> ids[id] < q && s[ids[id]].None? && Rank(s, ids[id]) < |shortids|
                                   && shortids[Rank(s, ids[id])] == id)
  }

  predicate SlotGiven(ids: map<nat, nat>, id: nat, p: nat) {
    id in ids && ids[id] == p
  }

  /** The next free slot goes to the next short id. */
  lemma AssignOne(ids: map<nat, nat>, shortids: seq<nat>, s: seq<Option<Tx>>, q: nat)
    requires q < |s| && s[q].None? && Rank(s, q) < |shortids| && AssignedTo(ids, shortids, s, q)
    requires shortids[Rank(s, q)] !in ids
    ensures AssignedTo(ids[shortids[Rank(s, q)] := q], shortids, s, q + 1)
  {
    RankStep(s, q);
    hide Rank;
    var id := shortids[Rank(s, q)];
    var more := ids[id := q];
    forall p | 0 <= p < q + 1 && s[p].None?
      ensures Rank(s, p) < |shortids| && SlotGiven(more, shortids[Rank(s, p)], p)
    {
      if p < q {
        assert SlotGiven(ids, shortids[Rank(s, p)], p);
      }
    }
  }

  /** A filled slot is passed over. */
  lemma PassOver(ids: map<nat, nat>, shortids: seq<nat>, s: seq<Option<Tx>>, q: nat)
    requires q < |s| && s[q].Some? && AssignedTo(ids, shortids, s, q)
    ensures AssignedTo(ids, shortids, s, q + 1) && Rank(s, q + 1) == Rank(s, q)
  {
    RankStep(s, q);
    hide Rank;
  }

  /** Once ids have repeated, only the sizes matter. */
  lemma StillRepeats(shortids: seq<nat>, i: nat)
    requires i < |shortids| && !Distinct(shortids[..i])
    ensures !Distinct(shortids[..i + 1])
  {
    var a, b :| 0 <= a < b < i && shortids[..i][a] == shortids[..i][b];
    assert shortids[..i + 1][a] == shortids[..i + 1][b];
  }

  lemma NextDistinct(shortids: seq<nat>, i: nat, ids: map<nat, nat>)
    requires i < |shortids| && (forall id :: id in ids <==> id in shortids[..i])
    ensures Distinct(shortids[..i + 1]) <==> Distinct(shortids[..i]) && shortids[i] !in ids
  {
    var now, next := shortids[..i], shortids[..i + 1];
    assert next == now + [shortids[i]];
    if !Distinct(now) {
      StillRepeats(shortids, i);
    } else if shortids[i] in ids {
      var a :| 0 <= a < i && now[a] == shortids[i];
      assert next[a] == next[i];
    }
  }

  /** The first `i` ids have been entered and the walk stands at position `q`. */
  ghost predicate Entered(ids: map<nat, nat>, shortids: seq<nat>, s: seq<Option<Tx>>, i: nat, q: nat) {
    && i <= |shortids| && i <= q <= |s| && Rank(s, q) == i
    && (forall id :: id in ids <==> id in shortids[..i])
    && |ids| <= i && (|ids| == i <==> Distinct(shortids[..i]))
    && (|ids| == i ==> AssignedTo(ids, shortids, s, q))
  }

  lemma EnterOne(ids: map<nat, nat>, shortids: seq<nat>, s: seq<Option<Tx>>, i: nat, q: nat)
    requires Entered(ids, shortids, s, i, q) && i < |shortids| && q < |s| && s[q].None?
    ensures Entered(ids[shortids[i] := q], shortids, s, i + 1, q + 1)
  {
    RankStep(s, q);
    NextDistinct(shortids, i, ids);
    if |ids| == i && shortids[i] !in ids {
      AssignOne(ids, shortids, s, q);
    }
    hide Rank, AssignedTo, Distinct;
    assert shortids[..i + 1] == shortids[..i] + [shortids[i]];
  }

  lemma EnterPast(ids: map<nat, nat>, shortids: seq<nat>, s: seq<Option<Tx>>, i: nat, q: nat)
    requires Entered(ids, shortids, s, i, q) && q < |s| && s[q].Some?
    ensures Entered(ids, shortids, s, i, q + 1)
  {
    RankStep(s, q);
    if |ids| == i {
      PassOver(ids, shortids, s, q);
    }
    hide Rank, AssignedTo, Distinct;
  }

  /** Walks the free slots; `crowded` says after which ids a bucket of the id map was too full. */
  method AssignIds(shortids: seq<nat>, s: seq<Option<Tx>>, crowded: nat -> bool) returns (ok: bool, ids: map<nat, nat>)
    requires CountNone(s) == |shortids|
    ensures ok <==> Distinct(shortids) && forall i: nat :: i < |shortids| ==> !crowded(i)
    ensures ok ==> AssignedTo(ids, shortids, s, |s|) && |ids| == |shortids|
  {
    hide Rank, AssignedTo, Entered;
    ids := map[];
    var offset := 0;
    NothingEntered(shortids, s);
    for i := 0 to |shortids|
      invariant offset >= 0 && Entered(ids, shortids, s, i, i + offset)
      invariant forall k: nat :: k < i ==> !crowded(k)
    {
      RoomLeft(ids, shortids, s, i, i + offset);
      while s[i + offset].Some?
        invariant 0 <= offset && i + offset < |s| && Entered(ids, shortids, s, i, i + offset)
        decreases |s| - offset
      {
        EnterPast(ids, shortids, s, i, i + offset);
        RoomLeft(ids, shortids, s, i, i + offset + 1);
        offset := offset + 1;
      }
      EnterOne(ids, shortids, s, i, i + offset);
      ids := ids[shortids[i] := i + offset];
      if crowded(i) {
        return false, ids;
      }
    }
    AllEntered(ids, shortids, s, |shortids| + offset);
    ok := |ids| == |shortids|;
  }

  lemma NothingEntered(shortids: seq<nat>, s: seq<Option<Tx>>)
    ensures Entered(map[], shortids, s, 0, 0)
  {
  }

  lemma RoomLeft(ids: map<nat, nat>, shortids: seq<nat>, s: seq<Option<Tx>>, i: nat, q: nat)
    requires Entered(ids, shortids, s, i, q) && i < |shortids| == CountNone(s)
    ensures q < |s|
  {
    assert s[..|s|] == s;
  }

  lemma AllEntered(ids: map<nat, nat>, shortids: seq<nat>, s: seq<Option<Tx>>, q: nat)
    requires Entered(ids, shortids, s, |shortids|, q) && |shortids| == CountNone(s)
    ensures |ids| == |shortids| <==> Distinct(shortids)
    ensures |ids| == |shortids| ==> AssignedTo(ids, shortids, s, |s|)
  {
    assert shortids[..|shortids|] == shortids;
    if |ids| == |shortids| {
      RestFilled(ids, shortids, s, q);
    }
  }

  lemma {:induction false} RestFilled(ids: map<nat, nat>, shortids: seq<nat>, s: seq<Option<Tx>>, q: nat)
    requires AssignedTo(ids, shortids, s, q) && Rank(s, q) == CountNone(s)
    ensures AssignedTo(ids, shortids, s, |s|)
    decreases |s| - q
  {
    if q < |s| {
      if s[q].None? {
        RankBelow(s, q);
        assert false;
      } else {
        PassOver(ids, shortids, s, q);
        RestFilled(ids, shortids, s, q + 1);
      }
    }
  }
}
