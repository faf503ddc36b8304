/** Saving the address manager and loading it again: the same addresses in the same slots, under new ids. */
module AddrSerial {
  import opened AddrTables
  import opened AddrMan
  import opened AddrLoad
  import AddrCheck

  const FILE_FORMAT := 4
  const INCOMPATIBILITY_BASE := 32
  const BIT30 := 0x4000_0000

  /** What is written, field by field; lists as long as the counts before them say. */
  datatype File = File(format: nat, compat: nat, key: nat, nNew: int, nTried: int, rawBuckets: nat,
    news: seq<Saved>, trieds: seq<Saved>, buckets: seq<seq<int>>, asmap: nat)

  /** x ^ (1 << 30). */
  /** One bit is turned over, and no other. */
  function Xor30(x: nat): (r: nat)
    ensures x < BIT30 ==> r == x + BIT30
    ensures BIT30 <= x < 2 * BIT30 ==> r == x - BIT30
  {
    if (x / BIT30) % 2 == 1 then x - BIT30 else x + BIT30
  }

  // ---------- saving ----------

  /** The list of a bucket: for every occupied place, the index its entry was written at. */
  ghost predicate ListOf(list: seq<int>, row: seq<int>, newOrder: seq<int>) {
    if row == [] then list == []
    else
      var n := |row| - 1;
      if row[n] == EMPTY then ListOf(list, row[..n], newOrder)
      else
        && list != []
        && 0 <= list[|list| - 1] < |newOrder| && newOrder[list[|list| - 1]] == row[n]
        && ListOf(list[..|list| - 1], row[..n], newOrder)
  }

  ghost predicate Lists(order: seq<int>, ids: set<int>) {
    && (forall i :: 0 <= i < |order| ==> order[i] in ids)
    && (forall i, j :: 0 <= i < j < |order| ==> order[i] != order[j])
    && (forall n :: n in ids ==> n in order)
  }

  ghost predicate StoredAs(saved: seq<Saved>, order: seq<int>, m: Infos) {
    |saved| == |order| && forall i :: 0 <= i < |order| ==> order[i] in m && saved[i] == Stored(m[order[i]])
  }

  /** A file that holds the books, its entries in the given orders. */
  ghost predicate Image(f: File, k: Books, newOrder: seq<int>, triedOrder: seq<int>) {
    && f.format == FILE_FORMAT && f.compat == INCOMPATIBILITY_BASE + FILE_FORMAT && f.rawBuckets == Xor30(NEW_BUCKETS)
    && f.nNew == |newOrder| == k.nNew && f.nTried == |triedOrder| == k.nTried
    && Lists(newOrder, k.newIds) && Lists(triedOrder, k.triedIds)
    && StoredAs(f.news, newOrder, k.m) && StoredAs(f.trieds, triedOrder, k.m)
    && |f.buckets| == NEW_BUCKETS == |k.newT|
    && forall b :: 0 <= b < NEW_BUCKETS ==> ListOf(f.buckets[b], k.newT[b], newOrder)
  }

  /** Ids of the entries written so far, with the index each was written at. */
  ghost predicate Written(walk: seq<int>, i: nat, m: Infos, tried: bool, saved: seq<Saved>, order: seq<int>) {
    && i <= |walk|
    && (forall x :: x in order ==> x in walk[..i] && x in m && m[x].fInTried == tried)
    && (forall x :: x in walk[..i] && x in m && m[x].fInTried == tried ==> x in order)
    && (forall s, t :: 0 <= s < t < |order| ==> order[s] != order[t])
    && StoredAs(saved, order, m)
  }

  lemma WriteOne(walk: seq<int>, i: nat, m: Infos, tried: bool, saved: seq<Saved>, order: seq<int>)
    requires AddrCheck.Walks(walk, m) && Written(walk, i, m, tried, saved, order) && i < |walk|
    ensures walk[i] in m
    ensures m[walk[i]].fInTried != tried ==> Written(walk, i + 1, m, tried, saved, order)
    ensures m[walk[i]].fInTried == tried ==>
      Written(walk, i + 1, m, tried, saved + [Stored(m[walk[i]])], order + [walk[i]])
  {
    assert walk[..i + 1] == walk[..i] + [walk[i]];
    assert walk[i] !in walk[..i];
  }

  /** Distinct ids of a set are no more than the set has, and as many just when they are all of it. */
  lemma CountOrder(order: seq<int>, ids: set<int>)
    requires (forall x :: x in order ==> x in ids) && forall s, t :: 0 <= s < t < |order| ==> order[s] != order[t]
    ensures |order| <= |ids|
    ensures (forall x :: x in ids ==> x in order) ==> |order| == |ids|
    ensures forall x :: x in ids && x !in order ==> |order| < |ids|
  {
    DistinctSize(order);
    var had := set x | x in order;
    CardSubset(had, ids);
    if forall x :: x in ids ==> x in order {
      assert had == ids;
    }
    forall x | x in ids && x !in order
      ensures |order| < |ids|
    {
      CardSubset(had, ids - {x});
    }
  }

  /** Which index each new entry was written at. */
  ghost predicate Indexed(unk: map<int, int>, order: seq<int>) {
    forall s :: 0 <= s < |order| ==> order[s] in unk && unk[order[s]] == s
  }

  lemma KindOf(pl: Placement, k: Books, n: int)
    requires Settled(pl, k) && n in k.m
    ensures k.m[n].fInTried <==> n in k.triedIds
    ensures k.m[n].fInTried <==> k.m[n].nRefCount == 0
    ensures k.m[n].fInTried <==> n !in k.newIds
  {
    SettledEntry(pl, k, n);
    SettledFacts(pl, k, {});
  }

  method SaveNews(a: AddrManImpl, walk: seq<int>) returns (news: seq<Saved>, unk: map<int, int>, ghost order: seq<int>)
    requires Settled(a.pl, a.Now()) && AddrCheck.Walks(walk, a.mapInfo)
    ensures Written(walk, |walk|, a.mapInfo, false, news, order) && Indexed(unk, order)
  {
    hide Settled, SettledBut, AddrCheck.Walks;
    news, unk, order := [], map[], [];
    for i := 0 to |walk|
      invariant Written(walk, i, a.mapInfo, false, news, order) && Indexed(unk, order)
    {
      WriteOne(walk, i, a.mapInfo, false, news, order);
      KindOf(a.pl, a.Now(), walk[i]);
      RoomToWrite(a.pl, a.Now(), walk, i, news, order, false);
      assert walk[i] !in order;
      unk := unk[walk[i] := |news|];
      if a.mapInfo[walk[i]].nRefCount != 0 {
        assert |news| != a.nNew;
        news := news + [Stored(a.mapInfo[walk[i]])];
        order := order + [walk[i]];
      }
    }
  }

  method SaveTrieds(a: AddrManImpl, walk: seq<int>) returns (trieds: seq<Saved>, ghost order: seq<int>)
    requires Settled(a.pl, a.Now()) && AddrCheck.Walks(walk, a.mapInfo)
    ensures Written(walk, |walk|, a.mapInfo, true, trieds, order)
  {
    hide Settled, SettledBut, AddrCheck.Walks;
    trieds, order := [], [];
    for i := 0 to |walk|
      invariant Written(walk, i, a.mapInfo, true, trieds, order)
    {
      WriteOne(walk, i, a.mapInfo, true, trieds, order);
      KindOf(a.pl, a.Now(), walk[i]);
      RoomToWrite(a.pl, a.Now(), walk, i, trieds, order, true);
      if a.mapInfo[walk[i]].fInTried {
        assert |trieds| != a.nTried;
        trieds := trieds + [Stored(a.mapInfo[walk[i]])];
        order := order + [walk[i]];
      }
    }
  }

  /** The counters never run out before the entries do. */
  lemma RoomToWrite(pl: Placement, k: Books, walk: seq<int>, i: nat, saved: seq<Saved>, order: seq<int>, tried: bool)
    requires Settled(pl, k) && AddrCheck.Walks(walk, k.m) && i < |walk| && Written(walk, i, k.m, tried, saved, order)
    ensures walk[i] in k.m && walk[i] !in order
    ensures k.m[walk[i]].fInTried == tried ==> |saved| < if tried then k.nTried else k.nNew
  {
    hide Settled, SettledBut;
    assert walk[i] !in walk[..i];
    var ids := if tried then k.triedIds else k.newIds;
    forall x | x in order
      ensures x in ids
    {
      KindOf(pl, k, x);
    }
    KindOf(pl, k, walk[i]);
    CountOrder(order, ids);
    Counters(pl, k);
  }

  lemma Counters(pl: Placement, k: Books)
    requires Settled(pl, k)
    ensures k.nNew == |k.newIds| && k.nTried == |k.triedIds|
  {
  }

  /** All entries of a kind have been written. */
  lemma AllWritten(pl: Placement, k: Books, walk: seq<int>, saved: seq<Saved>, order: seq<int>, tried: bool)
    requires Settled(pl, k) && AddrCheck.Walks(walk, k.m) && Written(walk, |walk|, k.m, tried, saved, order)
    ensures Lists(order, if tried then k.triedIds else k.newIds) && |order| == if tried then k.nTried else k.nNew
  {
    hide Kept, SettledBut;
    assert walk[..|walk|] == walk;
    var ids := if tried then k.triedIds else k.newIds;
    SettledFacts(pl, k, {});
    forall x | x in k.m
      ensures x in ids <==> x in order
    {
      KindOf(pl, k, x);
    }
    forall x | x in order
      ensures x in ids
    {
      KindOf(pl, k, x);
    }
    CountOrder(order, ids);
    Counters(pl, k);
  }

  method SaveBucket(row: seq<int>, unk: map<int, int>, ghost newOrder: seq<int>) returns (list: seq<int>)
    requires Indexed(unk, newOrder) && forall p :: 0 <= p < |row| && row[p] != EMPTY ==> row[p] in newOrder
    ensures ListOf(list, row, newOrder)
  {
    list := [];
    assert row[..0] == [];
    for p := 0 to |row|
      invariant ListOf(list, row[..p], newOrder)
    {
      assert row[..p + 1][..p] == row[..p];
      if row[p] != EMPTY {
        ghost var s :| 0 <= s < |newOrder| && newOrder[s] == row[p];
        ghost var before := list;
        list := list + [unk[row[p]]];
        assert list[..|list| - 1] == before;
      }
    }
    assert row[..|row|] == row;
  }

  method Serialize(
    a: AddrManImpl, walk: seq<int>, asmap: nat) returns (f: File, ghost newOrder: seq<int>, ghost triedOrder: seq<int>)
    requires a.Consistent() && AddrCheck.Walks(walk, a.mapInfo)
    ensures Image(f, a.Now(), newOrder, triedOrder) && f.key == a.nKey && f.asmap == asmap
  {
    hide Kept, SettledBut, AddrCheck.Walks, ListOf, Written;
    var news, unk, trieds;
    news, unk, newOrder := SaveNews(a, walk);
    trieds, triedOrder := SaveTrieds(a, walk);
    AllWritten(a.pl, a.Now(), walk, news, newOrder, false);
    AllWritten(a.pl, a.Now(), walk, trieds, triedOrder, true);
    SettledFacts(a.pl, a.Now(), {});
    var buckets: seq<seq<int>> := [];
    for b := 0 to NEW_BUCKETS
      invariant |buckets| == b && forall i :: 0 <= i < b ==> ListOf(buckets[i], a.vvNew[i], newOrder)
    {
      forall p | 0 <= p < |a.vvNew[b]| && a.vvNew[b][p] != EMPTY
        ensures a.vvNew[b][p] in newOrder
      {
        NewSlotFacts(a.pl, a.Now(), b, p, {});
      }
      var list := SaveBucket(a.vvNew[b], unk, newOrder);
      buckets := buckets + [list];
    }
    AsStored(walk, a.mapInfo, false, news, newOrder);
    AsStored(walk, a.mapInfo, true, trieds, triedOrder);
    f := File(FILE_FORMAT, INCOMPATIBILITY_BASE + FILE_FORMAT, a.nKey, a.nNew, a.nTried, Xor30(NEW_BUCKETS), news,
      trieds, buckets, asmap);
  }

  lemma AsStored(walk: seq<int>, m: Infos, tried: bool, saved: seq<Saved>, order: seq<int>)
    requires Written(walk, |walk|, m, tried, saved, order)
    ensures StoredAs(saved, order, m)
  {
  }
}
