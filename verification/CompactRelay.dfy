/** Filling the free slots of a compact block from known transactions, and completing the block. */
module CompactRelay {
  import opened Wrappers
  import opened CompactBlocks

  // ---------- what a scan has established ----------

  /** Two known transactions with different witness hashes share a short id. */
  ghost predicate Clash(seen: seq<Tx>, id: nat, sid: nat -> nat) {
    exists a, b :: a in seen && b in seen && sid(a.wtxid) == id && sid(b.wtxid) == id && a.wtxid != b.wtxid
  }

  /** A slot is filled from a matching transaction, and stays empty only if none matches or two that differ do. */
  ghost predicate SlotOk(slot: Option<Tx>, have: bool, id: nat, seen: seq<Tx>, sid: nat -> nat) {
    && (slot.Some? ==> have && slot.value in seen && sid(slot.value.wtxid) == id)
    && (!have ==> forall t :: t in seen ==> sid(t.wtxid) != id)
    && (have && slot.None? ==> Clash(seen, id, sid))
  }

  /** The effect of a matching transaction on its slot. */
  function Hit(slot: Option<Tx>, have: bool, tx: Tx, fromPool: bool): Option<Tx> {
    if !have then Some(tx)
    else if slot.Some? && (fromPool || slot.value.wtxid != tx.wtxid) then None
    else slot
  }

  lemma HitOk(slot: Option<Tx>, have: bool, id: nat, seen: seq<Tx>, sid: nat -> nat, tx: Tx, fromPool: bool)
    requires SlotOk(slot, have, id, seen, sid) && sid(tx.wtxid) == id
    requires fromPool ==> forall t :: t in seen ==> t.wtxid != tx.wtxid
    ensures SlotOk(Hit(slot, have, tx, fromPool), true, id, seen + [tx], sid)
  {
    var more := seen + [tx];
    assert tx in more;
    if have && slot.Some? {
      assert slot.value in more;
    } else if have {
      ClashGrows(seen, id, sid, tx);
    }
  }

  lemma ClashGrows(seen: seq<Tx>, id: nat, sid: nat -> nat, tx: Tx)
    requires Clash(seen, id, sid)
    ensures Clash(seen + [tx], id, sid)
  {
    var a, b :| a in seen && b in seen && sid(a.wtxid) == id && sid(b.wtxid) == id && a.wtxid != b.wtxid;
    assert a in seen + [tx] && b in seen + [tx];
  }

  lemma MissOk(slot: Option<Tx>, have: bool, id: nat, seen: seq<Tx>, sid: nat -> nat, tx: Tx)
    requires SlotOk(slot, have, id, seen, sid) && sid(tx.wtxid) != id
    ensures SlotOk(slot, have, id, seen + [tx], sid)
  {
    if have && slot.None? {
      ClashGrows(seen, id, sid, tx);
    }
  }

  /** Every slot of the layout: prefilled ones untouched, free ones as the transactions seen so far make them. */
  ghost predicate Scanned(layout: seq<Option<Tx>>, shortids: seq<nat>, slots: seq<Option<Tx>>,
    have: seq<bool>, seen: seq<Tx>, sid: nat -> nat)
  {
    && |slots| == |have| == |layout| && CountNone(layout) == |shortids|
    && (forall p :: 0 <= p < |layout| && layout[p].Some? ==> slots[p] == layout[p])
    && (forall p :: 0 <= p < |layout| && layout[p].None? ==> SlotAt(layout, shortids, slots, have, seen, sid, p))
  }

  ghost predicate SlotAt(layout: seq<Option<Tx>>, shortids: seq<nat>, slots: seq<Option<Tx>>,
    have: seq<bool>, seen: seq<Tx>, sid: nat -> nat, p: nat)
    requires p < |layout| == |slots| == |have|
  {
    Rank(layout, p) < |shortids| && SlotOk(slots[p], have[p], shortids[Rank(layout, p)], seen, sid)
  }

  lemma ScanStart(layout: seq<Option<Tx>>, shortids: seq<nat>, have: seq<bool>, sid: nat -> nat)
    requires |have| == |layout| && (forall p :: 0 <= p < |have| ==> !have[p]) && CountNone(layout) == |shortids|
    ensures Scanned(layout, shortids, layout, have, [], sid)
  {
    forall p | 0 <= p < |layout| && layout[p].None?
      ensures SlotAt(layout, shortids, layout, have, [], sid, p)
    {
      RankBelow(layout, p);
    }
  }

  /** A transaction that matches no short id changes nothing. */
  lemma ScanMiss(layout: seq<Option<Tx>>, shortids: seq<nat>, slots: seq<Option<Tx>>, have: seq<bool>, seen: seq<Tx>,
    sid: nat -> nat, ids: map<nat, nat>, tx: Tx)
    requires Scanned(layout, shortids, slots, have, seen, sid) && AssignedTo(ids, shortids, layout, |layout|)
    requires sid(tx.wtxid) !in ids
    ensures Scanned(layout, shortids, slots, have, seen + [tx], sid)
  {
    hide SlotOk, Rank;
    forall p | 0 <= p < |layout| && layout[p].None?
      ensures SlotAt(layout, shortids, slots, have, seen + [tx], sid, p)
    {
      assert SlotAt(layout, shortids, slots, have, seen, sid, p);
      assert SlotGiven(ids, shortids[Rank(layout, p)], p);
      MissOk(slots[p], have[p], shortids[Rank(layout, p)], seen, sid, tx);
    }
  }

  /** A transaction that matches a short id changes its slot alone. */
  lemma ScanHit(layout: seq<Option<Tx>>, shortids: seq<nat>, slots: seq<Option<Tx>>, have: seq<bool>, seen: seq<Tx>,
    sid: nat -> nat, ids: map<nat, nat>, tx: Tx, fromPool: bool)
    requires Scanned(layout, shortids, slots, have, seen, sid) && AssignedTo(ids, shortids, layout, |layout|)
    requires fromPool ==> forall t :: t in seen ==> t.wtxid != tx.wtxid
    requires sid(tx.wtxid) in ids
    ensures var q := ids[sid(tx.wtxid)];
      q < |layout| && layout[q].None?
      && Scanned(layout, shortids, slots[q := Hit(slots[q], have[q], tx, fromPool)], have[q := true], seen + [tx], sid)
  {
    hide SlotOk, Rank, Hit;
    var q := ids[sid(tx.wtxid)];
    var slots', have' := slots[q := Hit(slots[q], have[q], tx, fromPool)], have[q := true];
    forall p | 0 <= p < |layout| && layout[p].None?
      ensures SlotAt(layout, shortids, slots', have', seen + [tx], sid, p)
    {
      assert SlotAt(layout, shortids, slots, have, seen, sid, p);
      if p == q {
        HitOk(slots[p], have[p], shortids[Rank(layout, p)], seen, sid, tx, fromPool);
      } else {
        assert SlotGiven(ids, shortids[Rank(layout, p)], p);
        MissOk(slots[p], have[p], shortids[Rank(layout, p)], seen, sid, tx);
      }
    }
  }

  // ---------- counting the filled slots ----------

  /** How many free slots of the layout have been filled. */
  function CountFilled(layout: seq<Option<Tx>>, slots: seq<Option<Tx>>): nat
    requires |layout| == |slots|
  {
    if layout == [] then 0
    else
      var n := |layout| - 1;
      CountFilled(layout[..n], slots[..n]) + if layout[n].None? && slots[n].Some? then 1 else 0
  }

  lemma {:induction false} FilledNone(layout: seq<Option<Tx>>)
    ensures CountFilled(layout, layout) == 0
  {
    if layout != [] {
      FilledNone(layout[..|layout| - 1]);
    }
  }

  lemma {:induction false} FilledAt(layout: seq<Option<Tx>>, slots: seq<Option<Tx>>, p: nat, x: Option<Tx>)
    requires |layout| == |slots| && p < |slots| && layout[p].None?
    ensures CountFilled(layout, slots[p := x])
         == CountFilled(layout, slots) + (if x.Some? then 1 else 0) - (if slots[p].Some? then 1 else 0)
  {
    var n := |layout| - 1;
    if p == n {
      assert slots[p := x][..n] == slots[..n];
    } else {
      FilledAt(layout[..n], slots[..n], p, x);
      assert slots[p := x][..n] == slots[..n][p := x];
    }
  }

  /** The count reaches the number of free slots just when all are filled. */
  lemma {:induction false} FilledAll(layout: seq<Option<Tx>>, slots: seq<Option<Tx>>)
    requires |layout| == |slots|
    ensures CountFilled(layout, slots) <= CountNone(layout)
    ensures CountFilled(layout, slots) == CountNone(layout) <==>
            forall p :: 0 <= p < |layout| && layout[p].None? ==> slots[p].Some?
  {
    if layout != [] {
      var n := |layout| - 1;
      FilledAll(layout[..n], slots[..n]);
      if CountFilled(layout, slots) == CountNone(layout) {
        forall p | 0 <= p < |layout| && layout[p].None?
          ensures slots[p].Some?
        {
          assert p < n ==> layout[..n][p].None? && slots[..n][p] == slots[p];
        }
      }
    }
  }

  // ---------- the receiver ----------

  /** The extra transactions that are there. */
  function Present(extra: seq<Option<Tx>>): seq<Tx> {
    if extra == [] then []
    else
      var n := |extra| - 1;
      Present(extra[..n]) + if extra[n].Some? then [extra[n].value] else []
  }

  /** What a free slot may hold once all known transactions have been offered. */
  ghost predicate FinalSlot(slot: Option<Tx>, id: nat, known: seq<Tx>, sid: nat -> nat) {
    && (slot.Some? ==> slot.value in known && sid(slot.value.wtxid) == id)
    && (slot.None? ==> (forall t :: t in known ==> sid(t.wtxid) != id) || Clash(known, id, sid))
  }

  ghost predicate FinalAt(layout: seq<Option<Tx>>, shortids: seq<nat>, slots: seq<Option<Tx>>,
    known: seq<Tx>, sid: nat -> nat, p: nat)
    requires p < |layout| == |slots|
  {
    Rank(layout, p) < |shortids| && FinalSlot(slots[p], shortids[Rank(layout, p)], known, sid)
  }

  ghost predicate Finished(
    layout: seq<Option<Tx>>, shortids: seq<nat>, slots: seq<Option<Tx>>, known: seq<Tx>, sid: nat -> nat)
  {
    && |slots| == |layout|
    && (forall p :: 0 <= p < |layout| && layout[p].Some? ==> slots[p] == layout[p])
    && (forall p :: 0 <= p < |layout| && layout[p].None? ==> FinalAt(layout, shortids, slots, known, sid, p))
  }

  /** A transaction has been offered to every free slot. */
  ghost predicate AllHave(layout: seq<Option<Tx>>, have: seq<bool>) {
    |have| == |layout| && forall p :: 0 <= p < |layout| && layout[p].None? ==> have[p]
  }

  lemma FilledHave(
    layout: seq<Option<Tx>>, shortids: seq<nat>, slots: seq<Option<Tx>>, have: seq<bool>,
    seen: seq<Tx>, sid: nat -> nat)
    requires Scanned(layout, shortids, slots, have, seen, sid)
    requires CountFilled(layout, slots) == |shortids|
    ensures AllHave(layout, have)
  {
    hide Rank;
    FilledAll(layout, slots);
    forall p | 0 <= p < |layout| && layout[p].None?
      ensures have[p]
    {
      assert SlotAt(layout, shortids, slots, have, seen, sid, p);
    }
  }

  /** Early exits lose nothing: by then every free slot has been offered a transaction. */
  lemma ScanEnds(layout: seq<Option<Tx>>, shortids: seq<nat>, slots: seq<Option<Tx>>, have: seq<bool>, seen: seq<Tx>,
    known: seq<Tx>, sid: nat -> nat)
    requires Scanned(layout, shortids, slots, have, seen, sid)
    requires forall t :: t in seen ==> t in known
    requires AllHave(layout, have) || forall t :: t in known ==> t in seen
    ensures Finished(layout, shortids, slots, known, sid)
  {
    hide Rank;
    forall p | 0 <= p < |layout| && layout[p].None?
      ensures FinalAt(layout, shortids, slots, known, sid, p)
    {
      assert SlotAt(layout, shortids, slots, have, seen, sid, p);
      SlotEnds(slots[p], have[p], shortids[Rank(layout, p)], seen, known, sid);
    }
  }

  lemma SlotEnds(slot: Option<Tx>, have: bool, id: nat, seen: seq<Tx>, known: seq<Tx>, sid: nat -> nat)
    requires SlotOk(slot, have, id, seen, sid)
    requires forall t :: t in seen ==> t in known
    requires have || forall t :: t in known ==> t in seen
    ensures FinalSlot(slot, id, known, sid)
  {
    if have && slot.None? {
      var a, b :| a in seen && b in seen && sid(a.wtxid) == id && sid(b.wtxid) == id && a.wtxid != b.wtxid;
      assert a in known && b in known;
    }
  }

  /** All known transactions are in the slots their short ids name, and the count is of the slots so filled. */
  ghost predicate Completed(
    c: CompactBlock, pool: seq<Tx>, extra: seq<Option<Tx>>, sid: nat -> nat, slots: seq<Option<Tx>>, count: nat)
    requires PrefillsOk(c, |c.prefilled|)
  {
    var layout := Layout(c, |c.prefilled|);
    Finished(layout, c.shortids, slots, pool + Present(extra), sid) && count == CountFilled(layout, slots)
  }

  ghost predicate Among(some: seq<Tx>, known: seq<Tx>) {
    forall t :: t in some ==> t in known
  }

  /** Some of the known transactions have been looked at, and these are in the slots their short ids name. */
  ghost predicate PlacedSome(
    c: CompactBlock, pool: seq<Tx>, extra: seq<Option<Tx>>, sid: nat -> nat, slots: seq<Option<Tx>>)
    requires PrefillsOk(c, |c.prefilled|)
  {
    var layout := Layout(c, |c.prefilled|);
    exists seen :: Among(seen, pool + Present(extra)) && Finished(layout, c.shortids, slots, seen, sid)
  }

  predicate DistinctHashes(pool: seq<Tx>) {
    forall i, j :: 0 <= i < j < |pool| ==> pool[i].wtxid != pool[j].wtxid
  }

  class PartiallyDownloadedBlock {
    var header: Header
    var txnAvailable: seq<Option<Tx>>
    var prefilledCount: nat
    var mempoolCount: nat

    constructor ()
      ensures header == NullHeader && txnAvailable == [] && mempoolCount == 0
    {
      header, txnAvailable, prefilledCount, mempoolCount := NullHeader, [], 0, 0;
    }

    /** Offers one known transaction to the slot its short id names. */
    method Offer(tx: Tx, fromPool: bool, ids: map<nat, nat>, have: seq<bool>, sid: nat -> nat,
      ghost layout: seq<Option<Tx>>, ghost shortids: seq<nat>, ghost seen: seq<Tx>, ghost base: nat)
      returns (next: seq<bool>)
      requires Scanned(layout, shortids, txnAvailable, have, seen, sid) && AssignedTo(ids, shortids, layout, |layout|)
      requires fromPool ==> forall t :: t in seen ==> t.wtxid != tx.wtxid
      requires mempoolCount == base + CountFilled(layout, txnAvailable)
      modifies `txnAvailable, `mempoolCount
      ensures Scanned(layout, shortids, txnAvailable, next, seen + [tx], sid)
      ensures |txnAvailable| == |layout| && mempoolCount == base + CountFilled(layout, txnAvailable)
      ensures AllHave(layout, have) ==> AllHave(layout, next)
    {
      next := have;
      var shortid := sid(tx.wtxid);
      if shortid in ids {
        var q := ids[shortid];
        ScanHit(layout, shortids, txnAvailable, have, seen, sid, ids, tx, fromPool);
        FilledAt(layout, txnAvailable, q, Hit(txnAvailable[q], have[q], tx, fromPool));
        assert SlotAt(layout, shortids, txnAvailable, have, seen, sid, q);
        hide AssignedTo, Scanned, CountFilled, Rank;
        if !have[q] {
          txnAvailable := txnAvailable[q := Some(tx)];
          next := have[q := true];
          mempoolCount := mempoolCount + 1;
        } else if txnAvailable[q].Some? && (fromPool || txnAvailable[q].value.wtxid != tx.wtxid) {
          txnAvailable := txnAvailable[q := None];
          mempoolCount := mempoolCount - 1;
        }
      } else {
        ScanMiss(layout, shortids, txnAvailable, have, seen, sid, ids, tx);
      }
    }

    method ScanPool(pool: seq<Tx>, ids: map<nat, nat>, have: seq<bool>, sid: nat -> nat,
      ghost layout: seq<Option<Tx>>, ghost shortids: seq<nat>, ghost base: nat)
      returns (next: seq<bool>, ghost seen: seq<Tx>)
      requires Scanned(layout, shortids, txnAvailable, have, [], sid) && AssignedTo(ids, shortids, layout, |layout|)
      requires DistinctHashes(pool) && |ids| == |shortids|
      requires |txnAvailable| == |layout| && mempoolCount == base + CountFilled(layout, txnAvailable)
      modifies `txnAvailable, `mempoolCount
      ensures Scanned(layout, shortids, txnAvailable, next, seen, sid)
      ensures |txnAvailable| == |layout| && mempoolCount == base + CountFilled(layout, txnAvailable)
      ensures forall t :: t in seen ==> t in pool
      ensures base == 0 ==> AllHave(layout, next) || seen == pool
    {
      hide Scanned, AssignedTo, CountFilled, AllHave;
      next, seen := have, [];
      assert pool[..0] == [];
      for i := 0 to |pool|
        invariant seen == pool[..i] && Scanned(layout, shortids, txnAvailable, next, seen, sid)
        invariant |txnAvailable| == |layout| && mempoolCount == base + CountFilled(layout, txnAvailable)
      {
        next := Offer(pool[i], true, ids, next, sid, layout, shortids, seen, base);
        seen := seen + [pool[i]];
        if mempoolCount == |ids| {
          if base == 0 {
            FilledHave(layout, shortids, txnAvailable, next, seen, sid);
          }
          return;
        }
      }
    }

    method ScanExtra(extra: seq<Option<Tx>>, ids: map<nat, nat>, have: seq<bool>, sid: nat -> nat,
      ghost layout: seq<Option<Tx>>, ghost shortids: seq<nat>, ghost before: seq<Tx>, ghost base: nat)
      returns (next: seq<bool>, ghost seen: seq<Tx>)
      requires Scanned(layout, shortids, txnAvailable, have, before, sid) && AssignedTo(ids, shortids, layout, |layout|)
      requires |ids| == |shortids|
      requires |txnAvailable| == |layout| && mempoolCount == base + CountFilled(layout, txnAvailable)
      modifies `txnAvailable, `mempoolCount
      ensures Scanned(layout, shortids, txnAvailable, next, seen, sid)
      ensures |txnAvailable| == |layout| && mempoolCount == base + CountFilled(layout, txnAvailable)
      ensures forall t :: t in seen ==> t in before + Present(extra)
      ensures base == 0 ==>
        AllHave(layout, next) || (seen == before + Present(extra) && (AllHave(layout, have) ==> AllHave(layout, next)))
    {
      hide Scanned, AssignedTo, CountFilled, AllHave;
      next, seen := have, before;
      assert extra[..0] == [];
      assert before == before + Present(extra[..0]);
      for i := 0 to |extra|
        invariant seen == before + Present(extra[..i]) && Scanned(layout, shortids, txnAvailable, next, seen, sid)
        invariant |txnAvailable| == |layout| && mempoolCount == base + CountFilled(layout, txnAvailable)
        invariant AllHave(layout, have) ==> AllHave(layout, next)
      {
        PresentStep(extra, i);
        if extra[i].None? {
          continue;
        }
        next := Offer(extra[i].value, false, ids, next, sid, layout, shortids, seen, base);
        seen := seen + [extra[i].value];
        if mempoolCount == |ids| {
          if base == 0 {
            FilledHave(layout, shortids, txnAvailable, next, seen, sid);
          }
          PresentPrefix(extra, i + 1);
          return;
        }
      }
      assert extra[..|extra|] == extra;
    }

    /** Places the prefilled transactions; stops at the first that is not acceptable. */
    method Prefill(c: CompactBlock) returns (ok: bool)
      requires c.BlockTxCount() <= 0xffff && |txnAvailable| == c.BlockTxCount()
      requires forall p :: 0 <= p < |txnAvailable| ==> txnAvailable[p].None?
      modifies `txnAvailable
      ensures ok <==> PrefillsOk(c, |c.prefilled|)
      ensures ok ==> txnAvailable == Layout(c, |c.prefilled|)
      ensures !ok ==>
        exists n :: 0 <= n < |c.prefilled| && PrefillsOk(c, n) && !PrefillOk(c, n) && txnAvailable == Layout(c, n)
    {
      var last := -1;
      for i := 0 to |c.prefilled|
        invariant PrefillsOk(c, i) && last == Pos(c.prefilled, i) <= 0xffff && txnAvailable == Layout(c, i)
      {
        ghost var fits := PrefillOk(c, i);
        if c.prefilled[i].tx.isNull {
          return false;
        }
        last := last + c.prefilled[i].index + 1;
        if last > 0xffff {
          return false;
        }
        if last > |c.shortids| + i {
          return false;
        }
        txnAvailable := txnAvailable[last := Some(c.prefilled[i].tx)];
      }
      ok := true;
    }

    /**
     Lays out the block and fills what is known; `pool` and `extra` are the known transactions. The
     count of filled slots goes on from where it was, so on an object used before the search may
     stop early; what it has placed is right then too.
     */
    method InitData(c: CompactBlock, pool: seq<Tx>, extra: seq<Option<Tx>>, sid: nat -> nat, crowded: nat -> bool)
      returns (r: ReadStatus)
      requires c.BlockTxCount() <= 0xffff && DistinctHashes(pool)
      modifies this
      ensures r == Invalid <==> !(Acceptable(c) && old(header) == NullHeader && old(txnAvailable) == []
                                  && PrefillsOk(c, |c.prefilled|))
      ensures r == Ok ==> Distinct(c.shortids) && forall i: nat :: i < |c.shortids| ==> !crowded(i)
      ensures r == Failed ==> !(Distinct(c.shortids) && forall i: nat :: i < |c.shortids| ==> !crowded(i))
      ensures r != CheckBlockFailed
      ensures r == Ok ==> header == c.header && PlacedSome(c, pool, extra, sid, txnAvailable)
      ensures r == Ok && old(mempoolCount) == 0 ==> Completed(c, pool, extra, sid, txnAvailable, mempoolCount)
    {
      if c.header == NullHeader || (c.shortids == [] && c.prefilled == []) {
        return Invalid;
      }
      if |c.shortids| + |c.prefilled| > MAX_TX_COUNT {
        return Invalid;
      }
      if header != NullHeader || txnAvailable != [] {
        return Invalid;
      }
      hide Layout, Completed, PlacedSome, PrefillsOk, Distinct, DistinctHashes;
      header := c.header;
      txnAvailable := seq(c.BlockTxCount(), _ => None);
      var ok := Prefill(c);
      if !ok {
        return Invalid;
      }
      prefilledCount := |c.prefilled|;
      ok := FillKnown(c, pool, extra, sid, crowded);
      r := if ok then Ok else Failed;
    }

    /** Gives the free slots to the short ids and offers them the known transactions. */
    method FillKnown(c: CompactBlock, pool: seq<Tx>, extra: seq<Option<Tx>>, sid: nat -> nat, crowded: nat -> bool)
      returns (ok: bool)
      requires PrefillsOk(c, |c.prefilled|) && txnAvailable == Layout(c, |c.prefilled|)
      requires DistinctHashes(pool)
      modifies `txnAvailable, `mempoolCount
      ensures ok <==> Distinct(c.shortids) && forall i: nat :: i < |c.shortids| ==> !crowded(i)
      ensures ok ==> PlacedSome(c, pool, extra, sid, txnAvailable)
      ensures ok && old(mempoolCount) == 0 ==> Completed(c, pool, extra, sid, txnAvailable, mempoolCount)
    {
      hide Layout, Scanned, AssignedTo, CountFilled, Finished, PrefillsOk, Distinct, AllHave, Present, DistinctHashes;
      ghost var layout := Layout(c, |c.prefilled|);
      LayoutCount(c, |c.prefilled|);
      var given, ids := AssignIds(c.shortids, txnAvailable, crowded);
      if !given {
        return false;
      }
      var have := seq(|txnAvailable|, _ => false);
      ScanStart(layout, c.shortids, have, sid);
      FilledNone(layout);
      ghost var fromPool, seen;
      ghost var base := mempoolCount;
      have, fromPool := ScanPool(pool, ids, have, sid, layout, c.shortids, base);
      have, seen := ScanExtra(extra, ids, have, sid, layout, c.shortids, fromPool, base);
      ScanEnds(layout, c.shortids, txnAvailable, have, seen, seen, sid);
      assert Among(seen, pool + Present(extra));
      if base == 0 {
        ScanEnds(layout, c.shortids, txnAvailable, have, seen, pool + Present(extra), sid);
      }
      ok := true;
    }

    predicate IsTxAvailable(index: nat)
      requires header != NullHeader ==> index < |txnAvailable|
      reads this
    {
      header != NullHeader && txnAvailable[index].Some?
    }

    /** Moves the slots into a block, taking missing transactions in order for the empty ones. */
    method MoveOut(missing: seq<Tx>) returns (ok: bool, vtx: seq<Tx>, used: nat)
      modifies `txnAvailable
      ensures ok <==> CountNone(old(txnAvailable)) <= |missing|
      ensures ok ==> vtx == Filled(old(txnAvailable), missing) && used == CountNone(old(txnAvailable))
      ensures !ok ==> StoppedAt(old(txnAvailable), txnAvailable, |missing|)
    {
      hide Rank, CountNone, Filled, FilledTo, Moved;
      ghost var was := txnAvailable;
      used, vtx := 0, [];
      NothingFilled(was, missing);
      NothingMoved(was);
      for i := 0 to |txnAvailable|
        invariant |was| == |txnAvailable| && txnAvailable == Moved(was, i)
        invariant used == Rank(was, i) <= |missing| && FilledTo(was, i, missing, vtx)
      {
        RankStep(was, i);
        MovedStep(was, i);
        if txnAvailable[i].None? {
          if |missing| <= used {
            RankMonotone(was, i + 1, |was|);
            return false, vtx, used;
          }
          FilledStep(was, missing, i, vtx);
          vtx := vtx + [missing[used]];
          used := used + 1;
        } else {
          FilledStep(was, missing, i, vtx);
          vtx := vtx + [txnAvailable[i].value];
        }
        txnAvailable := txnAvailable[i := None];
      }
      AllFilled(was, missing, vtx);
      ok := true;
    }

    /** Completes the block with the missing transactions; `check` is the validity check of a whole block. */
    method FillBlock(missing: seq<Tx>, check: (Header, seq<Tx>) -> CheckResult) returns (r: ReadStatus, vtx: seq<Tx>)
      modifies this
      ensures old(header) == NullHeader ==> r == Invalid && header == NullHeader && txnAvailable == old(txnAvailable)
      ensures old(header) != NullHeader && |missing| < CountNone(old(txnAvailable)) ==>
        r == Invalid && header == old(header) && StoppedAt(old(txnAvailable), txnAvailable, |missing|)
      ensures old(header) != NullHeader && |missing| >= CountNone(old(txnAvailable)) ==>
        header == NullHeader && txnAvailable == [] && vtx == Filled(old(txnAvailable), missing)
        && r == if |missing| > CountNone(old(txnAvailable)) then Invalid else Verdict(check(old(header), vtx))
    {
      hide CountNone, Filled;
      if header == NullHeader {
        return Invalid, [];
      }
      var ok, used;
      ok, vtx, used := MoveOut(missing);
      if !ok {
        return Invalid, vtx;
      }
      var hdr := header;
      header, txnAvailable := NullHeader, [];
      r := if |missing| != used then Invalid else Verdict(check(hdr, vtx));
    }
  }

  datatype CheckResult = Passed | Mutated | Rejected

  /** Only a block that passes is taken; one that may owe its failure to a short id is asked for again. */
  function Verdict(c: CheckResult): (r: ReadStatus)
    ensures r == Ok <==> c == Passed
    ensures r == Failed <==> c == Mutated
    ensures r == CheckBlockFailed <==> c == Rejected
  {
    match c
    case Passed => Ok
    case Mutated => Failed
    case Rejected => CheckBlockFailed
  }

  // ---------- completing the block ----------

  /** The block that the slots and the missing transactions, taken in order, make up. */
  function Filled(slots: seq<Option<Tx>>, missing: seq<Tx>): (r: seq<Tx>)
    requires CountNone(slots) <= |missing|
    ensures |r| == |slots|
  {
    if slots == [] then []
    else
      var n := |slots| - 1;
      Filled(slots[..n], missing) + [if slots[n].Some? then slots[n].value else missing[CountNone(slots[..n])]]
  }

  /** The first `i` slots have gone into the block. */
  ghost predicate FilledTo(slots: seq<Option<Tx>>, i: nat, missing: seq<Tx>, vtx: seq<Tx>) {
    i <= |slots| && CountNone(slots[..i]) <= |missing| && vtx == Filled(slots[..i], missing)
  }

  lemma NothingFilled(slots: seq<Option<Tx>>, missing: seq<Tx>)
    ensures Rank(slots, 0) == 0 && FilledTo(slots, 0, missing, [])
  {
  }

  lemma FilledStep(slots: seq<Option<Tx>>, missing: seq<Tx>, i: nat, vtx: seq<Tx>)
    requires i < |slots| && Rank(slots, i + 1) <= |missing| && FilledTo(slots, i, missing, vtx)
    ensures slots[i].None? ==> Rank(slots, i) < |missing|
    ensures FilledTo(slots, i + 1, missing, vtx + [if slots[i].Some? then slots[i].value else missing[Rank(slots, i)]])
  {
    RankStep(slots, i);
    assert slots[..i + 1][..i] == slots[..i];
  }

  lemma AllFilled(slots: seq<Option<Tx>>, missing: seq<Tx>, vtx: seq<Tx>)
    requires FilledTo(slots, |slots|, missing, vtx)
    ensures CountNone(slots) <= |missing| && vtx == Filled(slots, missing) && Rank(slots, |slots|) == CountNone(slots)
  {
    assert slots[..|slots|] == slots;
  }

  /** The first `i` slots have been emptied. */
  function Moved(slots: seq<Option<Tx>>, i: nat): seq<Option<Tx>>
    requires i <= |slots|
  {
    seq(i, _ => None) + slots[i..]
  }

  lemma NothingMoved(slots: seq<Option<Tx>>)
    ensures Moved(slots, 0) == slots
  {
    assert slots[0..] == slots;
  }

  lemma MovedStep(slots: seq<Option<Tx>>, i: nat)
    requires i < |slots|
    ensures |Moved(slots, i)| == |slots| && Moved(slots, i)[i] == slots[i]
    ensures Moved(slots, i)[i := None] == Moved(slots, i + 1)
  {
  }

  /** Emptying stopped at the first empty slot that no transaction was left for. */
  ghost predicate StoppedAt(was: seq<Option<Tx>>, slots: seq<Option<Tx>>, n: nat) {
    exists i :: 0 <= i < |was| && was[i].None? && Rank(was, i) == n && slots == Moved(was, i)
  }

  /** They are the transactions that are there. */
  lemma {:induction false} PresentIn(extra: seq<Option<Tx>>, t: Tx)
    ensures t in Present(extra) <==> Some(t) in extra
  {
    if extra != [] {
      var n := |extra| - 1;
      PresentIn(extra[..n], t);
      assert extra == extra[..n] + [extra[n]];
    }
  }

  lemma PresentStep(extra: seq<Option<Tx>>, i: nat)
    requires i < |extra|
    ensures Present(extra[..i + 1]) == Present(extra[..i]) + if extra[i].Some? then [extra[i].value] else []
  {
    assert extra[..i + 1][..i] == extra[..i];
  }

  lemma {:induction false} PresentPrefix(extra: seq<Option<Tx>>, i: nat)
    requires i <= |extra|
    ensures forall t :: t in Present(extra[..i]) ==> t in Present(extra)
  {
    if i == |extra| {
      assert extra[..i] == extra;
    } else {
      var n := |extra| - 1;
      PresentPrefix(extra[..n], i);
      assert extra[..n][..i] == extra[..i];
    }
  }
}
