/** Rebuilding the new table of the address manager from saved bucket lists, and dropping what found no place. */
module AddrRestore {
  import opened AddrTables
  import opened AddrMan

  // ---------- the bucket lists ----------

  /** A bucket number and the index of a new entry. */
  datatype Pair = Pair(bucket: int, entry: int)

  function Row(b: int, list: seq<int>, nNew: int): seq<Pair> {
    if list == [] then []
    else
      var n := |list| - 1;
      Row(b, list[..n], nNew) + if 0 <= list[n] < nNew then [Pair(b, list[n])] else []
  }

  /** All entries of all bucket lists, in order, without those that name no new entry. */
  function PairsOf(buckets: seq<seq<int>>, nNew: int): seq<Pair> {
    if buckets == [] then []
    else
      var n := |buckets| - 1;
      PairsOf(buckets[..n], nNew) + Row(n, buckets[n], nNew)
  }

  method CollectPairs(buckets: seq<seq<int>>, count: nat, nNew: int) returns (pairs: seq<Pair>)
    requires count <= |buckets|
    ensures pairs == PairsOf(buckets[..count], nNew)
  {
    pairs := [];
    for b := 0 to count
      invariant pairs == PairsOf(buckets[..b], nNew)
    {
      var list := buckets[b];
      ghost var before := pairs;
      assert before == before + Row(b, list[..0], nNew);
      for n := 0 to |list|
        invariant pairs == before + Row(b, list[..n], nNew)
      {
        assert list[..n + 1][..n] == list[..n];
        if 0 <= list[n] < nNew {
          pairs := pairs + [Pair(b, list[n])];
        }
      }
      assert list[..|list|] == list;
      assert buckets[..b + 1][..b] == buckets[..b];
    }
  }

  lemma {:induction false} RowFacts(b: int, list: seq<int>, nNew: int)
    ensures forall i :: 0 <= i < |Row(b, list, nNew)| ==>
      Row(b, list, nNew)[i].bucket == b && 0 <= Row(b, list, nNew)[i].entry < nNew
  {
    if list != [] {
      RowFacts(b, list[..|list| - 1], nNew);
    }
  }

  lemma {:induction false} PairsFacts(buckets: seq<seq<int>>, nNew: int)
    ensures forall i :: 0 <= i < |PairsOf(buckets, nNew)| ==>
      0 <= PairsOf(buckets, nNew)[i].bucket < |buckets| && 0 <= PairsOf(buckets, nNew)[i].entry < nNew
  {
    if buckets != [] {
      PairsFacts(buckets[..|buckets| - 1], nNew);
      RowFacts(|buckets| - 1, buckets[|buckets| - 1], nNew);
    }
  }

  /** A pair is there just when the list of its bucket names the entry, and it is a new one. */
  lemma {:induction false} PairsIn(buckets: seq<seq<int>>, nNew: int, pair: Pair)
    ensures pair in PairsOf(buckets, nNew) <==>
      0 <= pair.bucket < |buckets| && pair.entry in buckets[pair.bucket] && 0 <= pair.entry < nNew
  {
    if buckets != [] {
      var n := |buckets| - 1;
      PairsIn(buckets[..n], nNew, pair);
      RowIn(n, buckets[n], nNew, pair);
    }
  }

  lemma {:induction false} RowIn(b: int, list: seq<int>, nNew: int, pair: Pair)
    ensures pair in Row(b, list, nNew) <==> pair.bucket == b && pair.entry in list && 0 <= pair.entry < nNew
  {
    if list != [] {
      var n := |list| - 1;
      RowIn(b, list[..n], nNew, pair);
      assert list == list[..n] + [list[n]];
    }
  }

  // ---------- giving references ----------

  /** What the slot of the new table holds that an entry's own source gives it. */
  function SourceSlot(pl: Placement, t: Table, info: AddrInfo): int
    requires Dim(t, NEW_BUCKETS)
  {
    var b := pl.NewBucket(info.addr, info.source);
    t[b][pl.Position(true, b, info.addr)]
  }

  /**
   A saved reference goes where it was if that can be, else to the slot of the entry's own source;
   an entry that is not valid, or has all the references it may have, gets none.
   */
  ghost predicate Given(pl: Placement, m: Infos, t: Table, pair: Pair, restoring: bool, m': Infos, t': Table)
    requires pair.entry in m && Dim(t, NEW_BUCKETS) && (restoring ==> 0 <= pair.bucket < NEW_BUCKETS)
  {
    var info := m[pair.entry];
    var b := if restoring && t[pair.bucket][pl.Position(true, pair.bucket, info.addr)] == EMPTY then pair.bucket
      else pl.NewBucket(info.addr, info.source);
    var p := pl.Position(true, b, info.addr);
    if pl.valid(info.addr) && info.nRefCount < NEW_BUCKETS_PER_ADDRESS && t[b][p] == EMPTY
    then m' == SetRefs(m, pair.entry, info.nRefCount + 1) && t' == Put(t, b, p, pair.entry)
    else m' == m && t' == t
  }

  /** An entry has a reference, unless it is not valid or another one is in the slot of its source. */
  ghost predicate CaredFor(pl: Placement, m: Infos, t: Table, e: int)
    requires e in m && Dim(t, NEW_BUCKETS)
  {
    !pl.valid(m[e].addr) || m[e].nRefCount > 0 || SourceSlot(pl, t, m[e]) != EMPTY
  }

  /** Giving a reference cares for its entry, and for all that were cared for before. */
  lemma GivenCares(pl: Placement, m: Infos, t: Table, pair: Pair, restoring: bool, m': Infos, t': Table, e: int)
    requires pair.entry in m && Dim(t, NEW_BUCKETS) && (restoring ==> 0 <= pair.bucket < NEW_BUCKETS)
    requires Given(pl, m, t, pair, restoring, m', t') && e in m && m[pair.entry].nRefCount >= 0
    requires pair.entry >= 0 && (e == pair.entry || CaredFor(pl, m, t, e))
    ensures e in m' && Dim(t', NEW_BUCKETS) && CaredFor(pl, m', t', e)
  {
  }

  /** Only reference counts of new entries have changed, and none is above the limit. */
  ghost predicate Refilled(m0: Infos, m: Infos, nNew: int) {
    && m.Keys == m0.Keys
    && (forall n :: n in m ==> m[n] == m0[n].(nRefCount := m[n].nRefCount) && m[n].nRefCount <= NEW_BUCKETS_PER_ADDRESS)
    && (forall n :: n in m && n >= nNew ==> m[n] == m0[n])
  }

  /** Fills one slot of the new table with an entry and counts the reference. */
  method FillSlot(a: AddrManImpl, b: nat, p: nat, n: int)
    requires Sound(a.pl, a.Now()) && Dim(a.vvNew, NEW_BUCKETS) && b < NEW_BUCKETS && p < BUCKET_SIZE
    requires a.vvNew[b][p] == EMPTY
    requires n in a.mapInfo && a.pl.Position(true, b, a.mapInfo[n].addr) == p
    modifies a`mapInfo, a`vvNew
    ensures Sound(a.pl, a.Now()) && a.vvNew == Put(old(a.vvNew), b, p, n)
    ensures a.mapInfo == SetRefs(old(a.mapInfo), n, old(a.mapInfo)[n].nRefCount + 1)
  {
    hide Sound, Kept;
    FillSound(a.pl, a.Now(), b, p, n);
    a.vvNew := Put(a.vvNew, b, p, n);
    a.mapInfo := SetRefs(a.mapInfo, n, a.mapInfo[n].nRefCount + 1);
  }

  /** Places one saved reference: where it was, or else in the bucket of the entry's own source. */
  method RestoreOne(a: AddrManImpl, pair: Pair, restoring: bool, ghost m0: Infos, ghost nNew: int)
    requires Sound(a.pl, a.Now()) && Refilled(m0, a.mapInfo, nNew) && pair.entry in a.mapInfo && pair.entry < nNew
    requires restoring ==> 0 <= pair.bucket < NEW_BUCKETS
    modifies a`mapInfo, a`vvNew
    ensures Sound(a.pl, a.Now()) && Refilled(m0, a.mapInfo, nNew)
    ensures Dim(old(a.vvNew), NEW_BUCKETS)
    ensures Given(a.pl, old(a.mapInfo), old(a.vvNew), pair, restoring, a.mapInfo, a.vvNew)
  {
    hide Sound;
    SoundFacts(a.pl, a.Now());
    var info := a.mapInfo[pair.entry];
    if !a.pl.valid(info.addr) {
      return;
    }
    if info.nRefCount >= NEW_BUCKETS_PER_ADDRESS {
      return;
    }
    var position := a.pl.Position(true, pair.bucket, info.addr);
    if restoring && a.vvNew[pair.bucket][position] == EMPTY {
      FillSlot(a, pair.bucket, position, pair.entry);
    } else {
      var bucket := a.pl.NewBucket(info.addr, info.source);
      position := a.pl.Position(true, bucket, info.addr);
      if a.vvNew[bucket][position] == EMPTY {
        FillSlot(a, bucket, position, pair.entry);
      }
    }
  }

  // ---------- what was saved ----------

  datatype Slot = Slot(b: int, p: int)

  /** The slots behind the pairs: distinct, and each pair names its slot's bucket and the new index of its entry. */
  ghost predicate PairedUp(pairs: seq<Pair>, slots: seq<Slot>, t: Table, newOrder: seq<int>) {
    && |pairs| == |slots| && Dim(t, NEW_BUCKETS)
    && (forall i :: 0 <= i < |slots| ==> 0 <= slots[i].b < NEW_BUCKETS && 0 <= slots[i].p < BUCKET_SIZE)
    && (forall i :: 0 <= i < |slots| ==> t[slots[i].b][slots[i].p] != EMPTY && Names(pairs[i], slots[i], t, newOrder))
    && (forall i, j :: 0 <= i < j < |slots| ==> slots[i] != slots[j])
    && (forall b, p :: 0 <= b < NEW_BUCKETS && 0 <= p < BUCKET_SIZE && t[b][p] != EMPTY ==> Slot(b, p) in slots)
  }

  predicate Names(pair: Pair, s: Slot, t: Table, newOrder: seq<int>)
    requires 0 <= s.b < |t| && 0 <= s.p < |t[s.b]|
  {
    pair.bucket == s.b && 0 <= pair.entry < |newOrder| && newOrder[pair.entry] == t[s.b][s.p]
  }

  /** The new entries have the addresses they had under their old ids. */
  ghost predicate SameNews(m: Infos, m0: Infos, newOrder: seq<int>) {
    forall e :: 0 <= e < |newOrder| ==> e in m && newOrder[e] in m0 && m[e].addr == m0[newOrder[e]].addr
  }

  /** The slots restored so far, and no others, hold their entries under the new ids. */
  ghost predicate RestoredTo(t: Table, pairs: seq<Pair>, slots: seq<Slot>, i: nat)
    requires |pairs| == |slots|
  {
    && i <= |slots| && Dim(t, NEW_BUCKETS)
    && (forall s :: 0 <= s < i ==> 0 <= slots[s].b < NEW_BUCKETS && 0 <= slots[s].p < BUCKET_SIZE)
    && (forall s :: 0 <= s < i ==> t[slots[s].b][slots[s].p] == pairs[s].entry)
    && (forall b, p :: 0 <= b < NEW_BUCKETS && 0 <= p < BUCKET_SIZE && t[b][p] != EMPTY ==> Slot(b, p) in slots[..i])
  }

  /** The references an entry has been given back are among those it had. */
  lemma RefsAmong(
    pl: Placement, t0: Table, t: Table, pairs: seq<Pair>, slots: seq<Slot>, newOrder: seq<int>, i: nat, e: int,
    addr: Service)
    requires PairedUp(pairs, slots, t0, newOrder) && RestoredTo(t, pairs, slots, i) && 0 <= e < |newOrder|
    ensures Refs(pl, t, e, addr) <= Refs(pl, t0, newOrder[e], addr)
  {
    forall b | b in Refs(pl, t, e, addr)
      ensures b in Refs(pl, t0, newOrder[e], addr)
    {
      var p := pl.Position(true, b, addr);
      assert t[b][p] == e;
      var s :| 0 <= s < i && slots[..i][s] == Slot(b, p);
      assert Names(pairs[s], slots[s], t0, newOrder);
    }
  }

  /** The next saved reference finds its slot free and its entry below the limit. */
  lemma NextFits(pl: Placement, k0: Books, k: Books, pairs: seq<Pair>, slots: seq<Slot>, newOrder: seq<int>, i: nat)
    requires Settled(pl, k0) && Sound(pl, k) && SameNews(k.m, k0.m, newOrder) && i < |slots|
    requires PairedUp(pairs, slots, k0.newT, newOrder) && RestoredTo(k.newT, pairs, slots, i)
    ensures var e := pairs[i].entry; var b := pairs[i].bucket;
      && e in k.m && 0 <= b < NEW_BUCKETS && pl.Position(true, b, k.m[e].addr) == slots[i].p
      && k.newT[b][slots[i].p] == EMPTY && k.m[e].nRefCount < NEW_BUCKETS_PER_ADDRESS
  {
    hide Kept, Sound;
    var e, b, p := pairs[i].entry, slots[i].b, slots[i].p;
    assert Names(pairs[i], slots[i], k0.newT, newOrder);
    var n := k0.newT[b][p];
    NewSlotFacts(pl, k0, b, p, {});
    assert Slot(b, p) !in slots[..i];
    assert k.newT[b][p] == EMPTY;
    RefsAmong(pl, k0.newT, k.newT, pairs, slots, newOrder, i, e, k.m[e].addr);
    SoundEntry(pl, k, e);
    RefCount(pl, k0, n);
    var now, was := Refs(pl, k.newT, e, k.m[e].addr), Refs(pl, k0.newT, n, k0.m[n].addr);
    assert b in was && b !in now;
    CardSubset(now, was - {b});
    Limit(pl, k0, n);
  }

  lemma RefCount(pl: Placement, k: Books, n: int)
    requires Kept(pl, k) && n in k.m && Dim(k.newT, NEW_BUCKETS)
    ensures k.m[n].nRefCount == |Refs(pl, k.newT, n, k.m[n].addr)| && n != EMPTY
  {
  }

  lemma Limit(pl: Placement, k: Books, n: int)
    requires Settled(pl, k) && n in k.m
    ensures k.m[n].nRefCount <= NEW_BUCKETS_PER_ADDRESS
  {
  }

  lemma RestoreStep(t0: Table, t: Table, pairs: seq<Pair>, slots: seq<Slot>, newOrder: seq<int>, i: nat)
    requires PairedUp(pairs, slots, t0, newOrder) && RestoredTo(t, pairs, slots, i) && i < |slots|
    ensures RestoredTo(Put(t, slots[i].b, slots[i].p, pairs[i].entry), pairs, slots, i + 1)
  {
    var t' := Put(t, slots[i].b, slots[i].p, pairs[i].entry);
    forall s | 0 <= s < i + 1
      ensures t'[slots[s].b][slots[s].p] == pairs[s].entry
    {
      assert s < i ==> slots[s] != slots[i];
    }
    assert slots[..i + 1] == slots[..i] + [slots[i]];
  }

  /** What a faithful file gives the restoring loop. */
  ghost predicate Source(pl: Placement, k0: Books, m0: Infos, pairs: seq<Pair>, slots: seq<Slot>, newOrder: seq<int>) {
    && Settled(pl, k0) && SameNews(m0, k0.m, newOrder) && PairedUp(pairs, slots, k0.newT, newOrder)
    && forall e :: 0 <= e < |newOrder| ==> e in m0 && pl.valid(m0[e].addr)
  }

  /** Places all saved references; from a faithful file, each where it was. */
  method RestoreAll(a: AddrManImpl, pairs: seq<Pair>, restoring: bool, ghost nNew: int,
    ghost k0: Books, ghost slots: seq<Slot>, ghost newOrder: seq<int>)
    requires Sound(a.pl, a.Now()) && Dim(a.vvNew, NEW_BUCKETS)
    requires forall i :: 0 <= i < |pairs| ==> pairs[i].entry in a.mapInfo && 0 <= pairs[i].entry < nNew
    requires restoring ==> forall i :: 0 <= i < |pairs| ==> 0 <= pairs[i].bucket < NEW_BUCKETS
    requires forall n :: n in a.mapInfo ==> a.mapInfo[n].nRefCount <= NEW_BUCKETS_PER_ADDRESS
    modifies a`mapInfo, a`vvNew
    ensures Sound(a.pl, a.Now()) && Refilled(old(a.mapInfo), a.mapInfo, nNew) && Dim(a.vvNew, NEW_BUCKETS)
    ensures restoring && |pairs| == |slots| && RestoredTo(old(a.vvNew), pairs, slots, 0) ==>
      Source(a.pl, k0, old(a.mapInfo), pairs, slots, newOrder) ==> RestoredTo(a.vvNew, pairs, slots, |slots|)
    ensures AllCared(a.pl, a.mapInfo, a.vvNew, pairs, |pairs|)
  {
    hide Sound;
    ghost var m0 := a.mapInfo;
    ghost var faithful := restoring && |pairs| == |slots| && RestoredTo(a.vvNew, pairs, slots, 0)
      && Source(a.pl, k0, m0, pairs, slots, newOrder);
    hide Settled, SettledBut, PairedUp, RestoredTo, SameNews, Source, AllCared, Refilled, Dim, Given;
    NoneToCareFor(a.pl, a.mapInfo, a.vvNew, pairs);
    for i := 0 to |pairs|
      invariant Sound(a.pl, a.Now()) && Refilled(m0, a.mapInfo, nNew) && Dim(a.vvNew, NEW_BUCKETS)
      invariant faithful ==> RestoredTo(a.vvNew, pairs, slots, i)
      invariant AllCared(a.pl, a.mapInfo, a.vvNew, pairs, i)
    {
      ghost var m, t := a.mapInfo, a.vvNew;
      SameIds(m0, m, nNew);
      if faithful {
        FaithfulStep(a.pl, k0, a.Now(), m0, pairs, slots, newOrder, i, nNew);
      }
      SoundEntry(a.pl, a.Now(), pairs[i].entry);
      RestoreOne(a, pairs[i], restoring, m0, nNew);
      SoundFacts(a.pl, a.Now());
      if faithful {
        GivenWhereItWas(a.pl, m, t, pairs[i], m0, nNew, a.mapInfo, a.vvNew);
      }
      AllCaredNext(a.pl, m, t, pairs, i, restoring, a.mapInfo, a.vvNew);
    }
  }

  ghost predicate AllCared(pl: Placement, m: Infos, t: Table, pairs: seq<Pair>, n: nat) {
    && n <= |pairs| && Dim(t, NEW_BUCKETS)
    && forall i :: 0 <= i < n ==> pairs[i].entry in m && CaredFor(pl, m, t, pairs[i].entry)
  }

  lemma NoneToCareFor(pl: Placement, m: Infos, t: Table, pairs: seq<Pair>)
    requires Dim(t, NEW_BUCKETS)
    ensures AllCared(pl, m, t, pairs, 0)
  {
  }

  lemma AllCaredNext(
    pl: Placement, m: Infos, t: Table, pairs: seq<Pair>, n: nat, restoring: bool, m': Infos, t': Table)
    requires n < |pairs| && AllCared(pl, m, t, pairs, n) && pairs[n].entry in m && pairs[n].entry >= 0
    requires restoring ==> 0 <= pairs[n].bucket < NEW_BUCKETS
    requires Given(pl, m, t, pairs[n], restoring, m', t') && m[pairs[n].entry].nRefCount >= 0
    ensures AllCared(pl, m', t', pairs, n + 1)
  {
    hide Given, CaredFor;
    GivenCares(pl, m, t, pairs[n], restoring, m', t', pairs[n].entry);
    forall i | 0 <= i < n + 1
      ensures pairs[i].entry in m' && CaredFor(pl, m', t', pairs[i].entry)
    {
      GivenCares(pl, m, t, pairs[n], restoring, m', t', pairs[i].entry);
    }
  }

  lemma SameIds(m0: Infos, m: Infos, nNew: int)
    requires Refilled(m0, m, nNew)
    ensures m.Keys == m0.Keys && forall n :: n in m ==> m[n].addr == m0[n].addr
  {
  }

  /** A reference whose slot is free goes there. */
  lemma GivenWhereItWas(
    pl: Placement, m: Infos, t: Table, pair: Pair, m0: Infos, nNew: int, m': Infos, t': Table)
    requires pair.entry in m && Dim(t, NEW_BUCKETS) && 0 <= pair.bucket < NEW_BUCKETS && Refilled(m0, m, nNew)
    requires Given(pl, m, t, pair, true, m', t') && pl.valid(m0[pair.entry].addr)
    requires m[pair.entry].nRefCount < NEW_BUCKETS_PER_ADDRESS
    requires t[pair.bucket][pl.Position(true, pair.bucket, m0[pair.entry].addr)] == EMPTY
    ensures t' == Put(t, pair.bucket, pl.Position(true, pair.bucket, m0[pair.entry].addr), pair.entry)
  {
  }

  lemma FaithfulStep(
    pl: Placement, k0: Books, k: Books, m0: Infos, pairs: seq<Pair>, slots: seq<Slot>, newOrder: seq<int>, i: nat,
    nNew: int)
    requires Sound(pl, k) && Refilled(m0, k.m, nNew) && i < |pairs| == |slots| && RestoredTo(k.newT, pairs, slots, i)
    requires Source(pl, k0, m0, pairs, slots, newOrder) && pairs[i].entry in m0
    ensures var e := pairs[i].entry; var b := pairs[i].bucket; var p := pl.Position(true, b, m0[e].addr);
      && pl.valid(m0[e].addr) && e in k.m && k.m[e].nRefCount < NEW_BUCKETS_PER_ADDRESS
      && Dim(k.newT, NEW_BUCKETS) && 0 <= b < NEW_BUCKETS && k.newT[b][p] == EMPTY
      && RestoredTo(Put(k.newT, b, p, e), pairs, slots, i + 1)
  {
    hide Sound, Settled;
    assert SameNews(k.m, k0.m, newOrder);
    NextFits(pl, k0, k, pairs, slots, newOrder, i);
    assert Names(pairs[i], slots[i], k0.newT, newOrder);
    RestoreStep(k0.newT, k.newT, pairs, slots, newOrder, i);
  }

  // ---------- dropping entries without a place ----------

  /** Every entry is in one of the two sets, and only new ones have references. */
  ghost predicate Sorted(k: Books) {
    && k.newIds + k.triedIds == k.m.Keys && 0 <= k.nIdCount
    && forall n :: n in k.m ==>
      k.m[n].nRefCount <= NEW_BUCKETS_PER_ADDRESS && (n in k.triedIds ==> k.m[n].nRefCount == 0)
  }

  /** The books as between operations, but for addresses that are there twice and times that are off. */
  ghost predicate Placed(pl: Placement, k: Books) {
    Sound(pl, k) && BoundedBut(k.m, k.newIds, k.triedIds, {}) && 0 <= k.nIdCount
  }

  lemma SettledIff(pl: Placement, k: Books)
    ensures Settled(pl, k) <==> Placed(pl, k) && Keyed(k.m, k.byAddr) && Timed(k.m, k.triedIds)
  {
    KeptIff(pl, k);
    hide Kept, Sound, BoundedBut;
  }

  /** Forgets the new entries without a reference; afterwards every entry has its place. */
  method Prune(a: AddrManImpl)
    requires Sound(a.pl, a.Now()) && Sorted(a.Now())
    modifies a`mapInfo, a`vRandom, a`mapAddr, a`nNew, a`networkCounts, a`newIds
    ensures Placed(a.pl, a.Now()) && (old(Kept(a.pl, a.Now())) ==> Settled(a.pl, a.Now()))
    ensures (forall n :: n in old(a.mapInfo) && n !in a.triedIds ==> old(a.mapInfo)[n].nRefCount > 0) ==>
      a.Now() == old(a.Now())
    ensures forall n :: n in a.mapInfo <==>
      n in old(a.mapInfo) && (n in a.triedIds || old(a.mapInfo)[n].nRefCount > 0)
    ensures forall n :: n in a.mapInfo ==> SameButPos(old(a.mapInfo)[n], a.mapInfo[n])
  {
    hide Kept, Sound, Placed;
    ghost var k0 := a.Now();
    ghost var full := forall n :: n in k0.m && n !in k0.triedIds ==> k0.m[n].nRefCount > 0;
    for n := 0 to a.nIdCount
      invariant Sound(a.pl, a.Now()) && Sorted(a.Now()) && (Kept(a.pl, k0) ==> Kept(a.pl, a.Now()))
      invariant forall i :: i in a.mapInfo && 0 <= i < n && i !in a.triedIds ==> a.mapInfo[i].nRefCount > 0
      invariant full ==> a.Now() == k0
      invariant a.mapInfo.Keys <= k0.m.Keys && forall i :: i in a.mapInfo ==> SameButPos(k0.m[i], a.mapInfo[i])
      invariant forall i :: i in k0.m && (i in a.triedIds || k0.m[i].nRefCount > 0) ==> i in a.mapInfo
    {
      if n in a.mapInfo {
        SoundEntry(a.pl, a.Now(), n);
        if !a.mapInfo[n].fInTried && a.mapInfo[n].nRefCount == 0 {
          a.Delete(n);
        }
      }
    }
    AllReferenced(a.pl, a.Now());
    AllPlaced(a.pl, a.Now());
    SettledIff(a.pl, a.Now());
    KeptIff(a.pl, a.Now());
  }

  lemma AllReferenced(pl: Placement, k: Books)
    requires Sound(pl, k)
    requires forall i :: i in k.m && 0 <= i < k.nIdCount && i !in k.triedIds ==> k.m[i].nRefCount > 0
    ensures forall i :: i in k.m && i !in k.triedIds ==> k.m[i].nRefCount > 0
  {
    hide Sound;
    forall n | n in k.m
      ensures 0 <= n < k.nIdCount
    {
      SoundEntry(pl, k, n);
    }
  }

  lemma AllPlaced(pl: Placement, k: Books)
    requires Sound(pl, k) && Sorted(k)
    requires forall i :: i in k.m && 0 <= i < k.nIdCount && i !in k.triedIds ==> k.m[i].nRefCount > 0
    ensures Placed(pl, k)
  {
    hide Sound;
    forall n | n in k.m
      ensures 0 <= n < k.nIdCount
    {
      SoundEntry(pl, k, n);
    }
  }
}
