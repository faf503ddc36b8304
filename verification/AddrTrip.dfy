/** Loading a saved address manager, and what a save and a load together preserve. */
module AddrTrip {
  import opened AddrTables
  import opened AddrMan
  import opened AddrLoad
  import opened AddrRestore
  import opened AddrSerial
  import AddrCheck

  // ---------- bucket lists and slots ----------

  /** The occupied places of a bucket. */
  ghost function RowSlots(b: int, row: seq<int>): seq<Slot> {
    if row == [] then []
    else
      var n := |row| - 1;
      RowSlots(b, row[..n]) + if row[n] != EMPTY then [Slot(b, n)] else []
  }

  ghost function SlotsOf(t: Table): seq<Slot> {
    if t == [] then []
    else
      var n := |t| - 1;
      SlotsOf(t[..n]) + RowSlots(n, t[n])
  }

  /** A pair for a place of a bucket. */
  ghost predicate Fits(pair: Pair, s: Slot, b: int, row: seq<int>, newOrder: seq<int>) {
    && pair.bucket == b == s.b && 0 <= s.p < |row| && row[s.p] != EMPTY
    && 0 <= pair.entry < |newOrder| && newOrder[pair.entry] == row[s.p]
  }

  lemma {:induction false} RowPaired(b: int, row: seq<int>, list: seq<int>, newOrder: seq<int>)
    requires ListOf(list, row, newOrder)
    ensures |Row(b, list, |newOrder|)| == |RowSlots(b, row)|
    ensures forall i :: 0 <= i < |RowSlots(b, row)| ==>
      Fits(Row(b, list, |newOrder|)[i], RowSlots(b, row)[i], b, row, newOrder)
  {
    if row != [] {
      var n := |row| - 1;
      var short := if row[n] == EMPTY then list else list[..|list| - 1];
      RowPaired(b, row[..n], short, newOrder);
      var pairs, slots := Row(b, short, |newOrder|), RowSlots(b, row[..n]);
      forall i | 0 <= i < |slots|
        ensures Fits(pairs[i], slots[i], b, row, newOrder)
      {
        assert Fits(pairs[i], slots[i], b, row[..n], newOrder);
      }
    }
  }

  /** The slots are those of a bucket, each once. */
  ghost predicate RowOk(slots: seq<Slot>, b: int, row: seq<int>) {
    && (forall i :: 0 <= i < |slots| ==> slots[i].b == b && 0 <= slots[i].p < |row|)
    && (forall i, j :: 0 <= i < j < |slots| ==> slots[i] != slots[j])
    && (forall p :: 0 <= p < |row| && row[p] != EMPTY ==> Slot(b, p) in slots)
  }

  lemma {:induction false} RowSlotsFacts(b: int, row: seq<int>)
    ensures RowOk(RowSlots(b, row), b, row)
  {
    if row != [] {
      var n := |row| - 1;
      RowSlotsFacts(b, row[..n]);
      RowOkStep(RowSlots(b, row[..n]), b, row);
    }
  }

  lemma RowOkStep(slots: seq<Slot>, b: int, row: seq<int>)
    requires row != [] && RowOk(slots, b, row[..|row| - 1])
    ensures RowOk(slots + if row[|row| - 1] != EMPTY then [Slot(b, |row| - 1)] else [], b, row)
  {
    var n := |row| - 1;
    var more := slots + if row[n] != EMPTY then [Slot(b, n)] else [];
    forall p | 0 <= p < |row| && row[p] != EMPTY
      ensures Slot(b, p) in more
    {
      if p < n {
        assert row[..n][p] == row[p];
      } else {
        assert more[|slots|] == Slot(b, n);
      }
    }
  }

  lemma {:induction false} SlotsFacts(t: Table)
    ensures forall i :: 0 <= i < |SlotsOf(t)| ==> 0 <= SlotsOf(t)[i].b < |t|
    ensures forall i, j :: 0 <= i < j < |SlotsOf(t)| ==> SlotsOf(t)[i] != SlotsOf(t)[j]
    ensures forall b, p :: 0 <= b < |t| && 0 <= p < |t[b]| && t[b][p] != EMPTY ==> Slot(b, p) in SlotsOf(t)
  {
    if t != [] {
      var n := |t| - 1;
      SlotsFacts(t[..n]);
      RowSlotsFacts(n, t[n]);
      forall b, p | 0 <= b < |t| && 0 <= p < |t[b]| && t[b][p] != EMPTY
        ensures Slot(b, p) in SlotsOf(t)
      {
        if b < n {
          assert t[..n][b] == t[b];
        }
      }
    }
  }

  ghost predicate FitsTable(pair: Pair, s: Slot, t: Table, newOrder: seq<int>) {
    0 <= s.b < |t| && Fits(pair, s, s.b, t[s.b], newOrder)
  }

  lemma {:induction false} TablePaired(t: Table, buckets: seq<seq<int>>, newOrder: seq<int>)
    requires |buckets| == |t| && forall b :: 0 <= b < |t| ==> ListOf(buckets[b], t[b], newOrder)
    ensures |PairsOf(buckets, |newOrder|)| == |SlotsOf(t)|
    ensures forall i :: 0 <= i < |SlotsOf(t)| ==> FitsTable(PairsOf(buckets, |newOrder|)[i], SlotsOf(t)[i], t, newOrder)
  {
    if t != [] {
      var n := |t| - 1;
      TablePaired(t[..n], buckets[..n], newOrder);
      RowPaired(n, t[n], buckets[n], newOrder);
      var pairs, slots := PairsOf(buckets[..n], |newOrder|), SlotsOf(t[..n]);
      var row, places := Row(n, buckets[n], |newOrder|), RowSlots(n, t[n]);
      forall i | 0 <= i < |SlotsOf(t)|
        ensures FitsTable(PairsOf(buckets, |newOrder|)[i], SlotsOf(t)[i], t, newOrder)
      {
        if i < |slots| {
          assert FitsTable(pairs[i], slots[i], t[..n], newOrder);
        } else {
          assert Fits(row[i - |slots|], places[i - |slots|], n, t[n], newOrder);
        }
      }
    }
  }

  /** The pairs of a faithful file and the occupied slots belong together. */
  lemma FilePaired(f: File, k: Books, newOrder: seq<int>, triedOrder: seq<int>)
    requires Image(f, k, newOrder, triedOrder) && Dim(k.newT, NEW_BUCKETS)
    ensures PairedUp(PairsOf(f.buckets, f.nNew), SlotsOf(k.newT), k.newT, newOrder)
  {
    var t := k.newT;
    TablePaired(t, f.buckets, newOrder);
    SlotsFacts(t);
    var pairs, slots := PairsOf(f.buckets, f.nNew), SlotsOf(t);
    hide PairsOf, SlotsOf, ListOf;
    forall i | 0 <= i < |slots|
      ensures 0 <= slots[i].b < NEW_BUCKETS && 0 <= slots[i].p < BUCKET_SIZE
      ensures t[slots[i].b][slots[i].p] != EMPTY && Names(pairs[i], slots[i], t, newOrder)
    {
      assert FitsTable(pairs[i], slots[i], t, newOrder);
    }
  }

  // ---------- what is preserved ----------

  /** An entry after a save and a load: only what is kept in memory alone is reset. */
  predicate SameEntry(o: AddrInfo, n: AddrInfo) {
    n == o.(lastTry := 0, lastCountAttempt := 0, nRandomPos := n.nRandomPos)
  }

  /** The tables agree slot by slot, up to the new ids; ids of tried entries start at `base`. */
  ghost predicate SameTable(t: Table, t0: Table, buckets: nat, order: seq<int>, base: nat) {
    && Dim(t, buckets) && Dim(t0, buckets)
    && forall b, p :: 0 <= b < buckets && 0 <= p < BUCKET_SIZE ==> SameSlotValue(t[b][p], t0[b][p], order, base)
  }

  predicate SameSlotValue(v: int, v0: int, order: seq<int>, base: nat) {
    if v0 == EMPTY then v == EMPTY else base <= v < base + |order| && order[v - base] == v0
  }

  /** All entries are back, each with its reference count, in the same slots of both tables. */
  ghost predicate Restored(k: Books, k0: Books, newOrder: seq<int>, triedOrder: seq<int>) {
    && IdsBelow(k.m.Keys, |newOrder| + |triedOrder|) && k.nNew == k0.nNew && k.nTried == k0.nTried
    && Lists(newOrder, k0.newIds) && Lists(triedOrder, k0.triedIds)
    && (forall e :: 0 <= e < |newOrder| ==> e in k.m && newOrder[e] in k0.m && SameEntry(k0.m[newOrder[e]], k.m[e]))
    && (forall t :: 0 <= t < |triedOrder| ==> TriedBack(k, k0, newOrder, triedOrder, t))
    && SameTable(k.newT, k0.newT, NEW_BUCKETS, newOrder, 0)
    && SameTable(k.triedT, k0.triedT, TRIED_BUCKETS, triedOrder, |newOrder|)
  }

  ghost predicate TriedBack(k: Books, k0: Books, newOrder: seq<int>, triedOrder: seq<int>, t: nat)
    requires t < |triedOrder|
  {
    |newOrder| + t in k.m && triedOrder[t] in k0.m && SameEntry(k0.m[triedOrder[t]], k.m[|newOrder| + t])
  }

  ghost predicate Faithful(pl: Placement, f: File, k0: Books, newOrder: seq<int>, triedOrder: seq<int>) {
    && Image(f, k0, newOrder, triedOrder) && Settled(pl, k0)
    && forall n :: n in k0.m ==> pl.valid(k0.m[n].addr)
  }

  lemma SlotsComplete(t0: Table, t: Table, pairs: seq<Pair>, slots: seq<Slot>, newOrder: seq<int>)
    requires PairedUp(pairs, slots, t0, newOrder) && RestoredTo(t, pairs, slots, |slots|)
    ensures SameTable(t, t0, NEW_BUCKETS, newOrder, 0)
  {
    assert slots[..|slots|] == slots;
    forall b, p | 0 <= b < NEW_BUCKETS && 0 <= p < BUCKET_SIZE
      ensures SameSlotValue(t[b][p], t0[b][p], newOrder, 0)
    {
      if t0[b][p] != EMPTY {
        var s :| 0 <= s < |slots| && slots[s] == Slot(b, p);
        assert Names(pairs[s], slots[s], t0, newOrder);
      }
    }
  }

  /** Equal tables give equal reference counts. */
  lemma SameRefs(pl: Placement, k: Books, k0: Books, newOrder: seq<int>, e: int)
    requires Sound(pl, k) && Settled(pl, k0) && SameTable(k.newT, k0.newT, NEW_BUCKETS, newOrder, 0)
    requires Lists(newOrder, k0.newIds)
    requires 0 <= e < |newOrder| && e in k.m && newOrder[e] in k0.m && k.m[e].addr == k0.m[newOrder[e]].addr
    ensures k.m[e].nRefCount == k0.m[newOrder[e]].nRefCount > 0
  {
    hide Kept, Sound;
    var n, addr := newOrder[e], k.m[e].addr;
    SoundEntry(pl, k, e);
    RefCount(pl, k0, n);
    KindOf(pl, k0, n);
    SettledEntry(pl, k0, n);
    forall b | 0 <= b < NEW_BUCKETS
      ensures b in Refs(pl, k.newT, e, addr) <==> b in Refs(pl, k0.newT, n, addr)
    {
      var p := pl.Position(true, b, addr);
      assert SameSlotValue(k.newT[b][p], k0.newT[b][p], newOrder, 0);
    }
    assert Refs(pl, k.newT, e, addr) == Refs(pl, k0.newT, n, addr);
  }

  /** The tried table follows from the entries in it. */
  lemma SameTried(pl: Placement, k: Books, k0: Books, base: nat, triedOrder: seq<int>)
    requires Sound(pl, k) && Settled(pl, k0) && Lists(triedOrder, k0.triedIds)
    requires forall n :: n in k.triedIds <==> base <= n < base + |triedOrder|
    requires forall t :: 0 <= t < |triedOrder| ==> SameAddr(k, k0, base, triedOrder, t)
    ensures SameTable(k.triedT, k0.triedT, TRIED_BUCKETS, triedOrder, base)
  {
    KeptIff(pl, k0);
    hide Kept, Sound;
    SoundFacts(pl, k);
    SoundFacts(pl, k0);
    forall b, p | 0 <= b < TRIED_BUCKETS && 0 <= p < BUCKET_SIZE
      ensures SameSlotValue(k.triedT[b][p], k0.triedT[b][p], triedOrder, base)
    {
      TriedSlotOf(pl, k, b, p);
      TriedSlotOf(pl, k0, b, p);
      if k0.triedT[b][p] != EMPTY {
        var t :| 0 <= t < |triedOrder| && triedOrder[t] == k0.triedT[b][p];
        assert SameAddr(k, k0, base, triedOrder, t);
        SoundEntry(pl, k, base + t);
      } else if k.triedT[b][p] != EMPTY {
        var t := k.triedT[b][p] - base;
        assert SameAddr(k, k0, base, triedOrder, t);
        SoundEntry(pl, k0, triedOrder[t]);
      }
    }
  }

  ghost predicate SameAddr(k: Books, k0: Books, base: nat, triedOrder: seq<int>, t: nat)
    requires t < |triedOrder|
  {
    base + t in k.m && triedOrder[t] in k0.m && k.m[base + t].addr == k0.m[triedOrder[t]].addr
  }

  lemma TriedSlotOf(pl: Placement, k: Books, b: nat, p: nat)
    requires Sound(pl, k) && Dim(k.triedT, TRIED_BUCKETS) && b < TRIED_BUCKETS && p < BUCKET_SIZE
    ensures var n := k.triedT[b][p];
      n != EMPTY ==>
        n in k.triedIds && n in k.m && b == pl.TriedBucket(k.m[n].addr) && p == pl.Position(false, b, k.m[n].addr)
  {
  }

  lemma EmptyUnused(pl: Placement, k: Books, n: int)
    requires Kept(pl, k) && n in k.m
    ensures n != EMPTY
  {
  }

  // ---------- loading ----------

  function BucketCount(f: File): nat {
    if f.format >= 1 then Xor30(f.rawBuckets) else f.rawBuckets
  }

  /** The header is understood, the counts are in range, and the lists are as long as they say. */
  predicate Readable(f: File) {
    && INCOMPATIBILITY_BASE <= f.compat <= INCOMPATIBILITY_BASE + FILE_FORMAT
    && 0 <= f.nNew <= NEW_BUCKETS * BUCKET_SIZE && 0 <= f.nTried <= TRIED_BUCKETS * BUCKET_SIZE
    && f.nNew <= |f.news| && f.nTried <= |f.trieds| && BucketCount(f) <= |f.buckets|
  }

  /** No address is there twice, and success times are those of entries that were saved from a consistent manager. */
  predicate Sane(f: File) {
    Readable(f) ==>
      && DistinctAddrs(f.news[..f.nNew] + f.trieds[..f.nTried])
      && (forall i :: 0 <= i < f.nNew ==> f.news[i].lastSuccess >= 0)
      && (forall i :: 0 <= i < f.nTried ==> f.trieds[i].lastSuccess > 0)
  }

  /** The state between reading the entries and restoring the buckets. */
  ghost predicate EntriesRead(k: Books, news: seq<Saved>, trieds: seq<Saved>, from: seq<nat>) {
    && NewsIn(k.m, news, |news|) && TriedsIn(k.m, trieds, |news|, from, |trieds|)
    && IdsBelow(k.m.Keys, |news| + |from|) && k.nIdCount == |news| + |from| && IdsBelow(k.newIds, |news|)
    && (forall n :: n in k.triedIds <==> |news| <= n < |news| + |from|)
    && (forall n :: n in k.m ==> k.m[n].nRefCount == 0)
    && k.nNew == |news| && k.nTried == |from|
  }

  /** Reads all entries. */
  method ReadEntries(a: AddrManImpl, news: seq<Saved>, trieds: seq<Saved>) returns (ghost from: seq<nat>)
    requires Settled(a.pl, a.Now()) && a.mapInfo == map[] && a.nIdCount == 0
    modifies a
    ensures Sound(a.pl, a.Now()) && EntriesRead(a.Now(), news, trieds, from)
    ensures DistinctAddrs(news + trieds) ==> Keyed(a.mapInfo, a.mapAddr)
    ensures SlotsDiffer(a.pl, trieds) ==> NoneLost(from, |trieds|)
    ensures SlotsTaken(a.pl, a.vvTried, trieds, |trieds|)
    ensures a.vvNew == old(a.vvNew) && a.triedCollisions == old(a.triedCollisions)
  {
    hide Kept, Sound, SettledBut, NewsRun, TriedsRun, EntriesRead, SlotsDiffer, NoneLost, DistinctAddrs, Keyed, Dim,
      SlotsTaken;
    BlankStart(a.pl, a.Now());
    a.nNew, a.nTried := |news|, |trieds|;
    assert Counting(a.Now(), 0, 0, 0) == old(a.Now());
    LoadNews(a, news);
    ghost var k1 := Counting(a.Now(), |news|, 0, |news|);
    var nLost;
    nLost, from := LoadTrieds(a, trieds, news);
    a.nTried := a.nTried - nLost;
    assert a.Now() == Counting(a.Now(), |news|, |from|, a.nIdCount);
    EntriesAre(a.pl, k1, a.Now(), news, trieds, from);
  }

  lemma BlankStart(pl: Placement, k: Books)
    requires Settled(pl, k) && k.m == map[]
    ensures k.nNew == 0 && k.nTried == 0 && Sound(pl, k) && Dim(k.newT, NEW_BUCKETS)
    ensures forall b, p :: 0 <= b < NEW_BUCKETS && 0 <= p < BUCKET_SIZE ==> k.newT[b][p] == EMPTY
  {
    KeptIff(pl, k);
    NoIds(pl, k);
  }

  lemma EntriesAre(pl: Placement, k1: Books, k: Books, news: seq<Saved>, trieds: seq<Saved>, from: seq<nat>)
    requires NewsRun(pl, k1, news, |news|) && TriedsRun(pl, k, k1.m, news, trieds, from, |trieds|)
    ensures EntriesRead(k, news, trieds, from) && Sound(pl, k)
    ensures DistinctAddrs(news + trieds) ==> Keyed(k.m, k.byAddr)
    ensures SlotsDiffer(pl, trieds) ==> NoneLost(from, |trieds|)
  {
    hide Sound, Keyed, SlotsDiffer, DistinctAddrs;
    SoundFacts(pl, k);
    forall n | n in k.m
      ensures k.m[n].nRefCount == 0 && (n in k.triedIds <==> n >= |news|)
    {
      SoundEntry(pl, k, n);
      assert n in k.m.Keys;
      if n >= |news| {
        var t := n - |news|;
        assert IsTried(k.m[|news| + t], trieds[from[t]]);
      }
    }
  }

  /** After restoring, every entry is in one of the two sets, and only new ones have references. */
  lemma SortedAfter(pl: Placement, k1: Books, k: Books, news: seq<Saved>, trieds: seq<Saved>, from: seq<nat>)
    requires EntriesRead(k1, news, trieds, from) && Refilled(k1.m, k.m, |news|)
    requires k == k1.(m := k.m, newT := k.newT)
    ensures Sorted(k)
  {
    forall n | n in k.m
      ensures n in k.newIds || n in k.triedIds
      ensures n in k.triedIds ==> k.m[n].nRefCount == 0
    {
      assert n in k1.m.Keys;
    }
    forall n | n in k.newIds || n in k.triedIds
      ensures n in k.m
    {
      assert n in k1.m.Keys;
    }
  }

  // ---------- a file of one's own is always accepted ----------

  lemma {:induction false} CoveredBy(ids: set<int>, vals: seq<int>)
    requires forall n :: n in ids ==> n in vals
    ensures |ids| <= |vals|
    decreases |vals|
  {
    if vals == [] {
      assert forall n :: n !in ids;
    } else {
      var last := vals[|vals| - 1];
      CoveredBy(ids - {last}, vals[..|vals| - 1]);
      CardSubset(ids, (ids - {last}) + {last});
    }
  }

  lemma {:induction false} RowSlotsCount(b: int, row: seq<int>)
    ensures |RowSlots(b, row)| <= |row|
  {
    if row != [] {
      RowSlotsCount(b, row[..|row| - 1]);
    }
  }

  lemma {:induction false} SlotsCount(t: Table)
    requires forall b :: 0 <= b < |t| ==> |t[b]| == BUCKET_SIZE
    ensures |SlotsOf(t)| <= BUCKET_SIZE * |t|
  {
    if t != [] {
      SlotsCount(t[..|t| - 1]);
      RowSlotsCount(|t| - 1, t[|t| - 1]);
    }
  }

  /** Ids that each fill some slot of a table are no more than its slots. */
  lemma IdsFit(t: Table, buckets: nat, ids: set<int>)
    requires Dim(t, buckets) && forall n :: n in ids ==> InTable(t, n)
    ensures |ids| <= BUCKET_SIZE * buckets
  {
    SlotsFacts(t);
    SlotsCount(t);
    var slots := SlotsOf(t);
    var vals := seq(|slots|, i requires 0 <= i < |slots| => SlotValue(t, slots[i]));
    hide SlotsOf;
    forall n | n in ids
      ensures n in vals
    {
      var b, p :| 0 <= b < |t| && 0 <= p < |t[b]| && t[b][p] == n && n != EMPTY;
      var i :| 0 <= i < |slots| && slots[i] == Slot(b, p);
      assert vals[i] == n;
    }
    CoveredBy(ids, vals);
  }

  ghost predicate InTable(t: Table, n: int) {
    exists b, p :: 0 <= b < |t| && 0 <= p < |t[b]| && t[b][p] == n && n != EMPTY
  }

  function SlotValue(t: Table, s: Slot): int {
    if 0 <= s.b < |t| && 0 <= s.p < |t[s.b]| then t[s.b][s.p] else EMPTY
  }

  lemma CountsInRange(pl: Placement, k: Books)
    requires Settled(pl, k)
    ensures 0 <= k.nNew <= NEW_BUCKETS * BUCKET_SIZE && 0 <= k.nTried <= TRIED_BUCKETS * BUCKET_SIZE
  {
    hide Kept;
    DimFacts(pl, k);
    Counters(pl, k);
    forall n | n in k.newIds
      ensures InTable(k.newT, n)
    {
      KindOf(pl, k, n);
      SettledEntry(pl, k, n);
      RefCount(pl, k, n);
      var b :| b in Refs(pl, k.newT, n, k.m[n].addr);
      assert k.newT[b][pl.Position(true, b, k.m[n].addr)] == n;
    }
    forall n | n in k.triedIds
      ensures InTable(k.triedT, n)
    {
      TriedSlotFacts(pl, k, n);
      EmptyUnused(pl, k, n);
      var b := pl.TriedBucket(k.m[n].addr);
      assert k.triedT[b][pl.Position(false, b, k.m[n].addr)] == n;
    }
    IdsFit(k.newT, NEW_BUCKETS, k.newIds);
    IdsFit(k.triedT, TRIED_BUCKETS, k.triedIds);
  }

  /** A saved file is readable and sane, and its tried entries belong in different slots. */
  lemma OwnFile(pl: Placement, f: File, k0: Books, newOrder: seq<int>, triedOrder: seq<int>)
    requires Faithful(pl, f, k0, newOrder, triedOrder)
    ensures Readable(f) && Sane(f) && SlotsDiffer(pl, f.trieds) && BucketCount(f) == NEW_BUCKETS == |f.buckets|
    ensures |f.news| == f.nNew == |newOrder| && |f.trieds| == f.nTried == |triedOrder| && f.format == FILE_FORMAT
  {
    hide Kept, SettledBut, ListOf;
    CountsInRange(pl, k0);
    SettledFacts(pl, k0, {});
    assert f.news[..f.nNew] == f.news && f.trieds[..f.nTried] == f.trieds;
    var ids, both := newOrder + triedOrder, f.news + f.trieds;
    forall i, j | 0 <= i < j < |both|
      ensures both[i].addr != both[j].addr
    {
      assert ids[i] != ids[j] && both[i] == Stored(k0.m[ids[i]]) && both[j] == Stored(k0.m[ids[j]]);
      KnownFacts(pl, k0, ids[i]);
      KnownFacts(pl, k0, ids[j]);
    }
    forall i | 0 <= i < |newOrder|
      ensures f.news[i].lastSuccess >= 0
    {
      SettledEntry(pl, k0, newOrder[i]);
    }
    forall i | 0 <= i < |triedOrder|
      ensures f.trieds[i].lastSuccess > 0 && pl.valid(f.trieds[i].addr)
    {
      SettledEntry(pl, k0, triedOrder[i]);
    }
    forall i, j | 0 <= i < j < |triedOrder|
      ensures !SameSlot(pl, f.trieds[i].addr, f.trieds[j].addr)
    {
      OneSlotOneEntry(pl, k0, triedOrder[i], triedOrder[j]);
    }
  }

  lemma OneSlotOneEntry(pl: Placement, k: Books, n: int, o: int)
    requires Settled(pl, k) && n in k.triedIds && o in k.triedIds && n in k.m && o in k.m && n != o
    ensures !SameSlot(pl, k.m[n].addr, k.m[o].addr)
  {
    DimFacts(pl, k);
    TriedSlotFacts(pl, k, n);
    TriedSlotFacts(pl, k, o);
  }

  // ---------- the whole load ----------

  lemma ValidEntry(pl: Placement, f: File, k0: Books, newOrder: seq<int>, triedOrder: seq<int>, n: int)
    requires Faithful(pl, f, k0, newOrder, triedOrder) && n in k0.m
    ensures pl.valid(k0.m[n].addr)
  {
  }

  /** The restoring loop gets from an own file what it needs to put every reference back. */
  lemma OwnSource(
    pl: Placement, f: File, k0: Books, k1: Books, newOrder: seq<int>, triedOrder: seq<int>, from: seq<nat>)
    requires Faithful(pl, f, k0, newOrder, triedOrder) && EntriesRead(k1, f.news, f.trieds, from)
    requires |f.news| == |newOrder|
    ensures Source(pl, k0, k1.m, PairsOf(f.buckets, f.nNew), SlotsOf(k0.newT), newOrder)
  {
    hide Kept, SettledBut, PairsOf, SlotsOf, ListOf, PairedUp;
    SettledFacts(pl, k0, {});
    FilePaired(f, k0, newOrder, triedOrder);
    forall e | 0 <= e < |newOrder|
      ensures e in k1.m && newOrder[e] in k0.m && k1.m[e].addr == k0.m[newOrder[e]].addr && pl.valid(k1.m[e].addr)
    {
      assert f.news[e] == Stored(k0.m[newOrder[e]]);
      ValidEntry(pl, f, k0, newOrder, triedOrder, newOrder[e]);
    }
  }

  /** With the new table back, all is back, and there is nothing to prune. */
  lemma AllBack(
    pl: Placement, f: File, k0: Books, k1: Books, k: Books, newOrder: seq<int>, triedOrder: seq<int>, from: seq<nat>)
    requires Faithful(pl, f, k0, newOrder, triedOrder) && EntriesRead(k1, f.news, f.trieds, from)
    requires NoneLost(from, |f.trieds|)
    requires Sound(pl, k) && k == k1.(m := k.m, newT := k.newT) && Refilled(k1.m, k.m, |f.news|)
    requires SameTable(k.newT, k0.newT, NEW_BUCKETS, newOrder, 0)
    ensures Restored(k, k0, newOrder, triedOrder)
    ensures forall n :: n in k.m && n !in k.triedIds ==> k.m[n].nRefCount > 0
  {
    hide Kept, Sound, SettledBut, ListOf;
    SettledFacts(pl, k0, {});
    forall e | 0 <= e < |newOrder|
      ensures e in k.m && newOrder[e] in k0.m && SameEntry(k0.m[newOrder[e]], k.m[e]) && k.m[e].nRefCount > 0
    {
      NewBack(pl, f, k0, k1, k, newOrder, triedOrder, from, e);
    }
    forall t | 0 <= t < |triedOrder|
      ensures TriedBack(k, k0, newOrder, triedOrder, t) && SameAddr(k, k0, |newOrder|, triedOrder, t)
    {
      TriedBackAt(pl, f, k0, k1, k, newOrder, triedOrder, from, t);
    }
    SameTried(pl, k, k0, |newOrder|, triedOrder);
    forall n | n in k.m && n !in k.triedIds
      ensures k.m[n].nRefCount > 0
    {
      assert n in k1.m.Keys;
    }
  }

  lemma NewBack(
    pl: Placement, f: File, k0: Books, k1: Books, k: Books, newOrder: seq<int>, triedOrder: seq<int>, from: seq<nat>,
    e: nat)
    requires Faithful(pl, f, k0, newOrder, triedOrder) && EntriesRead(k1, f.news, f.trieds, from)
    requires Sound(pl, k) && Refilled(k1.m, k.m, |f.news|) && SameTable(k.newT, k0.newT, NEW_BUCKETS, newOrder, 0)
    requires e < |newOrder|
    ensures e in k.m && newOrder[e] in k0.m && SameEntry(k0.m[newOrder[e]], k.m[e]) && k.m[e].nRefCount > 0
  {
    hide Kept, Sound, SettledBut, ListOf, SameTable;
    assert f.news[e] == Stored(k0.m[newOrder[e]]);
    assert e in k1.m;
    SameRefs(pl, k, k0, newOrder, e);
    KindOf(pl, k0, newOrder[e]);
  }

  lemma TriedBackAt(
    pl: Placement, f: File, k0: Books, k1: Books, k: Books, newOrder: seq<int>, triedOrder: seq<int>, from: seq<nat>,
    t: nat)
    requires Faithful(pl, f, k0, newOrder, triedOrder) && EntriesRead(k1, f.news, f.trieds, from)
    requires NoneLost(from, |f.trieds|)
    requires Refilled(k1.m, k.m, |f.news|) && t < |triedOrder|
    ensures TriedBack(k, k0, newOrder, triedOrder, t) && SameAddr(k, k0, |newOrder|, triedOrder, t)
  {
    hide Kept, SettledBut, ListOf;
    assert f.trieds[t] == Stored(k0.m[triedOrder[t]]);
    assert IsTried(k1.m[|f.news| + t], f.trieds[from[t]]);
    KindOf(pl, k0, triedOrder[t]);
  }

  /** What ties a run of the placing phase to a file of one's own. */
  ghost predicate Own(pl: Placement, f: File, k0: Books, newOrder: seq<int>, triedOrder: seq<int>,
    pairs: seq<Pair>, news: seq<Saved>, trieds: seq<Saved>, from: seq<nat>)
  {
    && Faithful(pl, f, k0, newOrder, triedOrder) && pairs == PairsOf(f.buckets, f.nNew)
    && news == f.news && trieds == f.trieds && |news| == |newOrder| && NoneLost(from, |trieds|)
  }

  lemma OwnPlaces(pl: Placement, f: File, k0: Books, k1: Books, newOrder: seq<int>, triedOrder: seq<int>,
    pairs: seq<Pair>, news: seq<Saved>, trieds: seq<Saved>, from: seq<nat>)
    requires Own(pl, f, k0, newOrder, triedOrder, pairs, news, trieds, from) && EntriesRead(k1, news, trieds, from)
    requires Dim(k1.newT, NEW_BUCKETS)
    requires forall b, p :: 0 <= b < NEW_BUCKETS && 0 <= p < BUCKET_SIZE ==> k1.newT[b][p] == EMPTY
    ensures |pairs| == |SlotsOf(k0.newT)| && RestoredTo(k1.newT, pairs, SlotsOf(k0.newT), 0)
    ensures Source(pl, k0, k1.m, pairs, SlotsOf(k0.newT), newOrder)
  {
    hide EntriesRead, Faithful;
    OwnSource(pl, f, k0, k1, newOrder, triedOrder, from);
    hide PairsOf, SlotsOf;
  }

  lemma OwnBack(pl: Placement, f: File, k0: Books, k1: Books, k: Books, newOrder: seq<int>, triedOrder: seq<int>,
    pairs: seq<Pair>, news: seq<Saved>, trieds: seq<Saved>, from: seq<nat>)
    requires Own(pl, f, k0, newOrder, triedOrder, pairs, news, trieds, from) && EntriesRead(k1, news, trieds, from)
    requires Source(pl, k0, k1.m, pairs, SlotsOf(k0.newT), newOrder)
    requires Sound(pl, k) && k == k1.(m := k.m, newT := k.newT) && Refilled(k1.m, k.m, |news|)
    requires |pairs| == |SlotsOf(k0.newT)| && RestoredTo(k.newT, pairs, SlotsOf(k0.newT), |SlotsOf(k0.newT)|)
    ensures Restored(k, k0, newOrder, triedOrder)
    ensures forall n :: n in k.m && n !in k.triedIds ==> k.m[n].nRefCount > 0
  {
    hide EntriesRead, Faithful, Kept, Sound, SettledBut, PairsOf, SlotsOf, RestoredTo, PairedUp, Refilled, SameNews,
      SameTable, Restored;
    SlotsComplete(k0.newT, k.newT, pairs, SlotsOf(k0.newT), newOrder);
    AllBack(pl, f, k0, k1, k, newOrder, triedOrder, from);
  }

  /** A new entry is there as it was saved, unless it is not valid or another one is in the slot of its source. */
  ghost predicate NewKept(pl: Placement, news: seq<Saved>, m: Infos, t: Table, e: int)
    requires 0 <= e < |news| && Dim(t, NEW_BUCKETS)
  {
    || !pl.valid(news[e].addr)
    || (e in m && m[e] == Loaded(news[e]).(nRefCount := m[e].nRefCount, nRandomPos := m[e].nRandomPos))
    || SourceSlot(pl, t, Loaded(news[e])) != EMPTY
  }

  /** Nothing is dropped but what is not valid, is in no bucket list, or finds another entry in its slot. */
  ghost predicate NothingElseLost(pl: Placement, f: File, k: Books)
    requires Readable(f)
  {
    && Dim(k.newT, NEW_BUCKETS)
    && (forall b, e :: 0 <= b < BucketCount(f) && e in f.buckets[b] && 0 <= e < f.nNew ==>
          NewKept(pl, f.news, k.m, k.newT, e))
    && SlotsTaken(pl, k.triedT, f.trieds[..f.nTried], f.nTried)
  }

  lemma CaredKept(
    pl: Placement, news: seq<Saved>, m0: Infos, m1: Infos, t: Table, m: Infos, tried: set<int>, e: int)
    requires 0 <= e < |news| && NewsIn(m0, news, |news|) && Refilled(m0, m1, |news|) && Dim(t, NEW_BUCKETS)
    requires e in m1 && CaredFor(pl, m1, t, e)
    requires forall n :: n in m <==> n in m1 && (n in tried || m1[n].nRefCount > 0)
    requires forall n :: n in m ==> SameButPos(m1[n], m[n])
    ensures NewKept(pl, news, m, t, e)
  {
    assert SourceSlot(pl, t, m1[e]) == SourceSlot(pl, t, Loaded(news[e]));
  }

  lemma LostOnlySo(pl: Placement, f: File, k: Books, pairs: seq<Pair>, news: seq<Saved>)
    requires Readable(f) && news == f.news[..f.nNew] && pairs == PairsOf(f.buckets[..BucketCount(f)], f.nNew)
    requires Dim(k.newT, NEW_BUCKETS) && SlotsTaken(pl, k.triedT, f.trieds[..f.nTried], f.nTried)
    requires forall i :: 0 <= i < |pairs| ==>
      0 <= pairs[i].entry < |news| && NewKept(pl, news, k.m, k.newT, pairs[i].entry)
    ensures NothingElseLost(pl, f, k)
  {
    hide PairsOf, NewKept, SlotsTaken;
    forall b, e | 0 <= b < BucketCount(f) && e in f.buckets[b] && 0 <= e < f.nNew
      ensures NewKept(pl, f.news, k.m, k.newT, e)
    {
      PairsIn(f.buckets[..BucketCount(f)], f.nNew, Pair(b, e));
      var i :| 0 <= i < |pairs| && pairs[i] == Pair(b, e);
      SameSaved(pl, f.news, f.nNew, k, e);
    }
  }

  lemma SameSaved(pl: Placement, news: seq<Saved>, n: nat, k: Books, e: int)
    requires 0 <= e < n <= |news| && Dim(k.newT, NEW_BUCKETS) && NewKept(pl, news[..n], k.m, k.newT, e)
    ensures NewKept(pl, news, k.m, k.newT, e)
  {
  }

  /** Gives out the references, then drops the entries that got none. */
  method PlaceAll(a: AddrManImpl, pairs: seq<Pair>, restoring: bool, ghost f: File, ghost k0: Books,
    ghost newOrder: seq<int>, ghost triedOrder: seq<int>,
    ghost news: seq<Saved>, ghost trieds: seq<Saved>, ghost from: seq<nat>)
    requires Sound(a.pl, a.Now()) && EntriesRead(a.Now(), news, trieds, from) && Dim(a.vvNew, NEW_BUCKETS)
    requires forall b, p :: 0 <= b < NEW_BUCKETS && 0 <= p < BUCKET_SIZE ==> a.vvNew[b][p] == EMPTY
    requires forall i :: 0 <= i < |pairs| ==> 0 <= pairs[i].entry < |news|
    requires restoring ==> forall i :: 0 <= i < |pairs| ==> 0 <= pairs[i].bucket < NEW_BUCKETS
    modifies a
    ensures Placed(a.pl, a.Now()) && (old(Kept(a.pl, a.Now())) ==> Settled(a.pl, a.Now()))
    ensures a.triedCollisions == old(a.triedCollisions) && a.vvTried == old(a.vvTried) && Dim(a.vvNew, NEW_BUCKETS)
    ensures forall i :: 0 <= i < |pairs| ==> NewKept(a.pl, news, a.mapInfo, a.vvNew, pairs[i].entry)
    ensures restoring && Own(a.pl, f, k0, newOrder, triedOrder, pairs, news, trieds, from) ==>
      Restored(a.Now(), k0, newOrder, triedOrder)
  {
    hide Kept, Sound, SettledBut, EntriesRead, Restored, Refilled, SlotsOf, RestoredTo, Source, Own, Sorted, Dim,
      Placed, CaredFor, AllCared, NewKept, NewsIn;
    ghost var k1 := a.Now();
    PairsKnown(k1, news, trieds, from, pairs);
    ghost var own := restoring && Own(a.pl, f, k0, newOrder, triedOrder, pairs, news, trieds, from);
    if own {
      OwnPlaces(a.pl, f, k0, k1, newOrder, triedOrder, pairs, news, trieds, from);
    }
    RestoreAll(a, pairs, restoring, |news|, k0, SlotsOf(k0.newT), newOrder);
    ghost var k2 := a.Now();
    SortedAfter(a.pl, k1, k2, news, trieds, from);
    if Kept(a.pl, k1) {
      RefilledKept(a.pl, k1, k2, |news|);
    }
    if own {
      OwnBack(a.pl, f, k0, k1, k2, newOrder, triedOrder, pairs, news, trieds, from);
    }
    Prune(a);
    NewsThere(k1, news, trieds, from);
    forall i | 0 <= i < |pairs|
      ensures NewKept(a.pl, news, a.mapInfo, a.vvNew, pairs[i].entry)
    {
      CaredAt(a.pl, k2.m, k2.newT, pairs, i);
      CaredKept(a.pl, news, k1.m, k2.m, k2.newT, a.mapInfo, a.triedIds, pairs[i].entry);
    }
  }

  lemma CaredAt(pl: Placement, m: Infos, t: Table, pairs: seq<Pair>, i: nat)
    requires AllCared(pl, m, t, pairs, |pairs|) && i < |pairs|
    ensures Dim(t, NEW_BUCKETS) && pairs[i].entry in m && CaredFor(pl, m, t, pairs[i].entry)
  {
  }

  lemma NewsThere(k1: Books, news: seq<Saved>, trieds: seq<Saved>, from: seq<nat>)
    requires EntriesRead(k1, news, trieds, from)
    ensures NewsIn(k1.m, news, |news|)
  {
  }

  lemma PairsKnown(k1: Books, news: seq<Saved>, trieds: seq<Saved>, from: seq<nat>, pairs: seq<Pair>)
    requires EntriesRead(k1, news, trieds, from) && forall i :: 0 <= i < |pairs| ==> 0 <= pairs[i].entry < |news|
    ensures forall i :: 0 <= i < |pairs| ==> pairs[i].entry in k1.m
    ensures forall n :: n in k1.m ==> k1.m[n].nRefCount <= NEW_BUCKETS_PER_ADDRESS
  {
  }

  lemma RefilledKept(pl: Placement, k1: Books, k: Books, nNew: int)
    requires Kept(pl, k1) && Sound(pl, k) && k == k1.(m := k.m, newT := k.newT) && Refilled(k1.m, k.m, nNew)
    ensures Kept(pl, k)
  {
    hide Kept, Sound;
    KeptOn(pl, k1, k);
  }

  /** The times of the entries are those of the file. */
  lemma TimesRead(k: Books, news: seq<Saved>, trieds: seq<Saved>, from: seq<nat>)
    requires EntriesRead(k, news, trieds, from)
    requires forall i :: 0 <= i < |news| ==> news[i].lastSuccess >= 0
    requires forall i :: 0 <= i < |trieds| ==> trieds[i].lastSuccess > 0
    ensures Timed(k.m, k.triedIds)
  {
    forall n | n in k.m
      ensures k.m[n].lastTry >= 0 && k.m[n].lastSuccess >= 0 && (n in k.triedIds ==> k.m[n].lastSuccess > 0)
    {
      assert n in k.m.Keys;
      if n >= |news| {
        assert IsTried(k.m[|news| + (n - |news|)], trieds[from[n - |news|]]);
      }
    }
  }

  lemma SaneKept(pl: Placement, f: File, k: Books, from: seq<nat>)
    requires Readable(f) && Sane(f) && Sound(pl, k) && EntriesRead(k, f.news[..f.nNew], f.trieds[..f.nTried], from)
    requires DistinctAddrs(f.news[..f.nNew] + f.trieds[..f.nTried]) ==> Keyed(k.m, k.byAddr)
    ensures Kept(pl, k)
  {
    KeptIff(pl, k);
    hide Kept, Sound, EntriesRead, Keyed, Timed, DistinctAddrs;
    TimesRead(k, f.news[..f.nNew], f.trieds[..f.nTried], from);
  }

  /** Of what a load can leave behind, the self-check passes exactly the settled books. */
  lemma PassesIff(pl: Placement, nKey: nat, k: Books)
    requires Placed(pl, k)
    ensures Dim(k.newT, NEW_BUCKETS) && Dim(k.triedT, TRIED_BUCKETS) && EMPTY !in k.m && AddrCheck.Walks(k.order, k.m)
    ensures AddrCheck.Passes(pl, nKey, k.m, k.byAddr, k.order, k.newT, k.triedT, k.nNew, k.nTried, k.counts)
            <==> Settled(pl, k) && nKey != 0
  {
    SoundFacts(pl, k);
    SettledIff(pl, k);
    hide Kept, SettledBut, Settled, NewTable, TriedTable, Counted, BoundedBut;
    assert AddrCheck.Walks(k.order, k.m);
    if Settled(pl, k) && nKey != 0 {
      AddrCheck.SettledPasses(pl, nKey, k);
    } else if AddrCheck.Passes(pl, nKey, k.m, k.byAddr, k.order, k.newT, k.triedT, k.nNew, k.nTried, k.counts) {
      EntriesRight(pl, k);
    }
  }

  lemma EntriesRight(pl: Placement, k: Books)
    requires Sound(pl, k) && AddrCheck.EntriesPass(k.m, k.byAddr, k.order)
    ensures Keyed(k.m, k.byAddr) && Timed(k.m, k.triedIds)
  {
    forall n | n in k.m
      ensures k.m[n].addr in k.byAddr && k.byAddr[k.m[n].addr] == n
      ensures k.m[n].lastTry >= 0 && k.m[n].lastSuccess >= 0 && (n in k.triedIds ==> k.m[n].lastSuccess > 0)
    {
      assert AddrCheck.EntryPasses(k.m[n], n, k.byAddr, k.order);
    }
  }

  /**
   Loads a file into a blank manager. Whatever a readable file says, the final self-check
   rejects it or the manager is consistent, and nothing is lost but for collisions or for not
   being valid; the check never rejects a file that names every address once with times that can
   be, and a file saved from a manager, under the same net groups,
   gives back every entry and both tables.
   */
  method Unserialize(
    a: AddrManImpl, f: File, asmap: nat, ghost k0: Books, ghost newOrder: seq<int>, ghost triedOrder: seq<int>)
    returns (ok: bool)
    requires Settled(a.pl, a.Now()) && a.mapInfo == map[] && a.nIdCount == 0 && a.triedCollisions == {}
    modifies a
    ensures ok <==> Readable(f) && a.Consistent()
    ensures Readable(f) && Sane(f) && a.nKey != 0 ==> ok
    ensures Readable(f) ==> NothingElseLost(a.pl, f, a.Now())
    ensures Faithful(a.pl, f, k0, newOrder, triedOrder) && f.asmap == asmap && a.nKey != 0 ==>
      ok && Restored(a.Now(), k0, newOrder, triedOrder)
  {
    hide Kept, Sound, SettledBut, Faithful, Restored, EntriesRead, DistinctAddrs, Pending, Own, Xor30, Keyed, Placed,
      AddrCheck.Passes, Sane, NothingElseLost, NewKept, SlotsTaken;
    ghost var faithful := Faithful(a.pl, f, k0, newOrder, triedOrder) && f.asmap == asmap;
    if faithful {
      OwnFile(a.pl, f, k0, newOrder, triedOrder);
    }
    if f.compat < INCOMPATIBILITY_BASE || f.compat - INCOMPATIBILITY_BASE > FILE_FORMAT {
      return false;
    }
    if f.nNew > NEW_BUCKETS * BUCKET_SIZE || f.nNew < 0 || f.nTried > TRIED_BUCKETS * BUCKET_SIZE || f.nTried < 0 {
      return false;
    }
    var nUBuckets := BucketCount(f);
    if |f.news| < f.nNew || |f.trieds| < f.nTried || |f.buckets| < nUBuckets {
      return false;
    }
    var news, trieds := f.news[..f.nNew], f.trieds[..f.nTried];
    BlankStart(a.pl, a.Now());
    ghost var from := ReadEntries(a, news, trieds);
    if Sane(f) {
      SaneKept(a.pl, f, a.Now(), from);
    }
    var pairs := CollectPairs(f.buckets, nUBuckets, f.nNew);
    PairsFacts(f.buckets[..nUBuckets], f.nNew);
    var restoring := nUBuckets == NEW_BUCKETS && (if f.format >= 2 then f.asmap else 0) == asmap;
    if faithful {
      OwnAll(a.pl, f, k0, newOrder, triedOrder, pairs, news, trieds, from);
    }
    PlaceAll(a, pairs, restoring, f, k0, newOrder, triedOrder, news, trieds, from);
    LostOnlySo(a.pl, f, a.Now(), pairs, news);
    PassesIff(a.pl, a.nKey, a.Now());
    NonePending(a.pl, a.mapInfo, a.vvTried, a.triedCollisions, a.nIdCount);
    var code := a.CheckAddrman(a.vRandom);
    ok := code == 0;
  }

  lemma NonePending(pl: Placement, m: Infos, t: Table, collisions: set<int>, nIdCount: int)
    requires Dim(t, TRIED_BUCKETS) && collisions == {}
    ensures Pending(pl, m, t, collisions, nIdCount)
  {
  }

  lemma OwnAll(pl: Placement, f: File, k0: Books, newOrder: seq<int>, triedOrder: seq<int>,
    pairs: seq<Pair>, news: seq<Saved>, trieds: seq<Saved>, from: seq<nat>)
    requires Faithful(pl, f, k0, newOrder, triedOrder) && Readable(f) && BucketCount(f) == |f.buckets|
    requires |f.news| == f.nNew == |newOrder| && |f.trieds| == f.nTried && SlotsDiffer(pl, f.trieds)
    requires pairs == PairsOf(f.buckets[..BucketCount(f)], f.nNew) && news == f.news[..f.nNew]
    requires trieds == f.trieds[..f.nTried]
    requires SlotsDiffer(pl, trieds) ==> NoneLost(from, |trieds|)
    ensures Own(pl, f, k0, newOrder, triedOrder, pairs, news, trieds, from)
  {
    hide Faithful, SlotsDiffer, NoneLost, PairsOf;
    assert f.buckets[..BucketCount(f)] == f.buckets && news == f.news && trieds == f.trieds;
  }

  /** Saving a manager of valid addresses and loading the file gives a consistent manager with the same content. */
  method RoundTrip(a: AddrManImpl, walk: seq<int>, asmap: nat)
    returns (b: AddrManImpl, ok: bool, ghost newOrder: seq<int>, ghost triedOrder: seq<int>)
    requires a.Consistent() && AddrCheck.Walks(walk, a.mapInfo)
    requires forall n :: n in a.mapInfo ==> a.pl.valid(a.mapInfo[n].addr)
    ensures ok && b.Consistent() && b.pl == a.pl && Restored(b.Now(), a.Now(), newOrder, triedOrder)
  {
    var f;
    f, newOrder, triedOrder := Serialize(a, walk, asmap);
    hide Kept, SettledBut, Image, Restored, AddrCheck.Walks;
    assert Faithful(a.pl, f, a.Now(), newOrder, triedOrder);
    OwnFile(a.pl, f, a.Now(), newOrder, triedOrder);
    b := new AddrManImpl(a.pl, f.key);
    ok := Unserialize(b, f, asmap, a.Now(), newOrder, triedOrder);
  }
}
