/**
 Loading the address manager: the entries are read back, the tried table is
 rebuilt from the addresses, and the new table from saved bucket lists.
 */
module AddrLoad {
  import opened AddrTables
  import opened AddrMan

  /** What is saved of an entry. */
  datatype Saved = Saved(addr: Service, source: NetAddr, nTime: int, nServices: set<nat>, lastSuccess: int,
    nAttempts: int)

  function Stored(i: AddrInfo): Saved {
    Saved(i.addr, i.source, i.nTime, i.nServices, i.lastSuccess, i.nAttempts)
  }

  function Loaded(s: Saved): AddrInfo {
    AddrInfo(s.addr, s.source, s.nTime, s.nServices, 0, 0, s.lastSuccess, s.nAttempts, 0, false, -1)
  }

  predicate DistinctAddrs(s: seq<Saved>) {
    forall i, j :: 0 <= i < j < |s| ==> s[i].addr != s[j].addr
  }

  /** The ids in use are those below `n`. */
  ghost predicate IdsBelow(ids: set<int>, n: int) {
    forall i :: i in ids <==> 0 <= i < n
  }

  // ---------- entries of the new table ----------

  /** The first `n` ids are the saved new entries. */
  ghost predicate NewsIn(m: Infos, news: seq<Saved>, n: nat) {
    && n <= |news|
    && forall i :: 0 <= i < n ==>
      i in m && m[i] == Loaded(news[i]).(nRefCount := m[i].nRefCount, nRandomPos := m[i].nRandomPos)
  }

  /** No two of the entries known have the address of the next one. */
  lemma AddressFree(m: Infos, byAddr: map<Service, int>, nIdCount: int, addr: Service)
    requires Pointing(m, byAddr, nIdCount) && forall n :: n in m ==> m[n].addr != addr
    ensures addr !in byAddr
  {
    forall x | x in byAddr
      ensures x != addr
    {
      var n := byAddr[x];
      assert n in m && m[n].addr == x;
      assert m[n].addr != addr;
    }
  }

  /** The books with counters as far as the entries read account for them. */
  ghost function Counting(k: Books, nNew: int, nTried: int, nIdCount: int): Books {
    k.(nNew := nNew, nTried := nTried, nIdCount := nIdCount)
  }

  /** The first `n` entries of the new table have been read. */
  ghost predicate NewsRun(pl: Placement, k: Books, news: seq<Saved>, n: nat) {
    && Sound(pl, k) && (DistinctAddrs(news) ==> Keyed(k.m, k.byAddr)) && k.nIdCount == k.nNew == n && k.nTried == 0
    && NewsIn(k.m, news, n) && IdsBelow(k.m.Keys, n) && IdsBelow(k.newIds, n)
    && forall i :: 0 <= i < n ==> k.m[i].nRefCount == 0
  }

  lemma NewsRunStart(pl: Placement, k: Books, news: seq<Saved>)
    requires Sound(pl, k) && k.m == map[] && k.nIdCount == k.nNew == k.nTried == 0
    ensures NewsRun(pl, k, news, 0)
  {
    NoIds(pl, k);
  }

  lemma NewsRunStep(pl: Placement, k: Books, news: seq<Saved>, n: nat)
    requires NewsRun(pl, k, news, n) && n < |news|
    ensures NewsRun(pl, Append(pl, k, Loaded(news[n])), news, n + 1)
  {
    hide Sound, Keyed;
    if DistinctAddrs(news) {
      NextFree(pl, k, news[n].addr);
    }
    AppendSound(pl, k, Loaded(news[n]));
  }

  /** Reads the entries of the new table; the counters were set beforehand. */
  method LoadNews(a: AddrManImpl, news: seq<Saved>)
    requires Sound(a.pl, Counting(a.Now(), 0, 0, 0)) && a.mapInfo == map[]
    modifies a`mapInfo, a`mapAddr, a`vRandom, a`networkCounts, a`newIds, a`nIdCount
    ensures NewsRun(a.pl, Counting(a.Now(), |news|, 0, |news|), news, |news|) && a.nIdCount == |news|
  {
    hide NewsRun, Append, Sound;
    NewsRunStart(a.pl, Counting(a.Now(), 0, 0, 0), news);
    for n := 0 to |news|
      invariant NewsRun(a.pl, Counting(a.Now(), n, 0, n), news, n)
    {
      NewsRunStep(a.pl, Counting(a.Now(), n, 0, n), news, n);
      InsertNew(a, Loaded(news[n]), n);
    }
    a.nIdCount := |news|;
  }

  method InsertNew(a: AddrManImpl, info: AddrInfo, n: int)
    modifies a`mapInfo, a`mapAddr, a`vRandom, a`networkCounts, a`newIds
    ensures Counting(a.Now(), n + 1, 0, n + 1) == Append(a.pl, Counting(old(a.Now()), n, 0, n), info)
    ensures a.mapInfo == old(a.mapInfo)[n := info.(nRandomPos := |old(a.vRandom)|)] && a.newIds == old(a.newIds) + {n}
  {
    a.mapInfo := a.mapInfo[n := info.(nRandomPos := |a.vRandom|)];
    a.mapAddr := a.mapAddr[info.addr := n];
    a.vRandom := a.vRandom + [n];
    a.networkCounts := Bump(a.networkCounts, a.pl.network(info.addr), 1, 0);
    a.newIds := a.newIds + {n};
  }

  lemma NoIds(pl: Placement, k: Books)
    requires Sound(pl, k) && k.m == map[]
    ensures k.newIds == {} && k.triedIds == {}
  {
  }

  lemma NextFree(pl: Placement, k: Books, addr: Service)
    requires Sound(pl, k) && forall n :: n in k.m ==> k.m[n].addr != addr
    ensures addr !in k.byAddr
  {
    AddressFree(k.m, k.byAddr, k.nIdCount, addr);
  }

  /** A bump that is taken back and one for the other table come to the latter. */
  lemma BumpOver(counts: NetCounts, net: Network)
    ensures Bump(Bump(Bump(counts, net, 1, 0), net, -1, 0), net, 0, 1) == Bump(counts, net, 0, 1)
  {
  }

  /** A new entry that goes straight to the tried table. */
  function AppendTried(pl: Placement, k: Books, info: AddrInfo): Books
    requires Dim(k.triedT, TRIED_BUCKETS)
  {
    var n, b := k.nIdCount, pl.TriedBucket(info.addr);
    k.(m := k.m[n := info.(nRandomPos := |k.order|, fInTried := true)],
       byAddr := k.byAddr[info.addr := n], nIdCount := n + 1,
       order := k.order + [n], triedT := Put(k.triedT, b, pl.Position(false, b, info.addr), n),
       triedIds := k.triedIds + {n}, nTried := k.nTried + 1, counts := Bump(k.counts, pl.network(info.addr), 0, 1))
  }

  lemma AppendTriedSound(pl: Placement, k: Books, info: AddrInfo)
    requires Sound(pl, k) && 0 <= k.nIdCount && Dim(k.triedT, TRIED_BUCKETS) && info.nRefCount == 0 && !info.fInTried
    requires TriedSlot(pl, k.triedT, info.addr) == EMPTY
    ensures Sound(pl, AppendTried(pl, k, info))
    ensures Keyed(k.m, k.byAddr) && info.addr !in k.byAddr ==>
      Keyed(AppendTried(pl, k, info).m, AppendTried(pl, k, info).byAddr)
  {
    hide Sound;
    var n := k.nIdCount;
    var k1 := Append(pl, k, info);
    AppendSound(pl, k, info);
    SoundFacts(pl, k);
    var k2 := LeaveNew(pl, k1, n);
    LeaveNewSound(pl, k1, n);
    var k3 := EnterTried(pl, k2, n);
    EnterTriedSound(pl, k2, n);
    BumpOver(k.counts, pl.network(info.addr));
    assert k3.newIds == k.newIds;
    assert k3.m == AppendTried(pl, k, info).m;
  }

  // ---------- entries of the tried table ----------

  /** The ids from `base` on are tried entries, read from the saved ones that `from` names. */
  ghost predicate TriedsIn(m: Infos, trieds: seq<Saved>, base: nat, from: seq<nat>, j: nat) {
    && j <= |trieds|
    && (forall t :: 0 <= t < |from| ==> from[t] < j)
    && (forall t :: 0 <= t < |from| ==> base + t in m && IsTried(m[base + t], trieds[from[t]]))
  }

  predicate IsTried(i: AddrInfo, s: Saved) {
    i == Loaded(s).(fInTried := true, nRandomPos := i.nRandomPos)
  }

  /** The address of the next saved tried entry is not among those loaded. */
  lemma TriedFree(pl: Placement, k: Books, news: seq<Saved>, trieds: seq<Saved>, from: seq<nat>, j: nat)
    requires Sound(pl, k) && NewsIn(k.m, news, |news|) && TriedsIn(k.m, trieds, |news|, from, j) && j < |trieds|
    requires IdsBelow(k.m.Keys, |news| + |from|) && DistinctAddrs(news + trieds)
    ensures trieds[j].addr !in k.byAddr
  {
    hide Sound;
    var both := news + trieds;
    forall n | n in k.m
      ensures k.m[n].addr != trieds[j].addr
    {
      assert n in k.m.Keys;
      assert both[|news| + j] == trieds[j];
      if n < |news| {
        assert both[n] == news[n];
      } else {
        var t := n - |news|;
        assert IsTried(k.m[|news| + t], trieds[from[t]]);
        assert both[|news| + from[t]] == trieds[from[t]];
      }
    }
    NextFree(pl, k, trieds[j].addr);
  }

  /** Every saved tried entry so far has been taken. */
  ghost predicate NoneLost(from: seq<nat>, j: nat) {
    |from| == j && forall t :: 0 <= t < j ==> from[t] == t
  }

  /** No two saved tried entries belong in the same slot, and all addresses are valid. */
  ghost predicate SlotsDiffer(pl: Placement, trieds: seq<Saved>) {
    && (forall i :: 0 <= i < |trieds| ==> pl.valid(trieds[i].addr))
    && (forall i, j :: 0 <= i < j < |trieds| ==> !SameSlot(pl, trieds[i].addr, trieds[j].addr))
  }

  predicate SameSlot(pl: Placement, x: Service, y: Service) {
    var b := pl.TriedBucket(x);
    b == pl.TriedBucket(y) && pl.Position(false, b, x) == pl.Position(false, b, y)
  }

  /** When slots differ, the slot of the next entry is free. */
  lemma NextSlotFree(pl: Placement, k: Books, trieds: seq<Saved>, base: nat, from: seq<nat>, j: nat)
    requires Sound(pl, k) && TriedsIn(k.m, trieds, base, from, j) && j < |trieds| && IdsBelow(k.m.Keys, base + |from|)
    requires SlotsDiffer(pl, trieds) && Dim(k.triedT, TRIED_BUCKETS) && forall n :: n in k.triedIds ==> n >= base
    ensures TriedSlot(pl, k.triedT, trieds[j].addr) == EMPTY
  {
    var addr := trieds[j].addr;
    SoundFacts(pl, k);
    forall o | o in k.triedIds
      ensures !SameSlot(pl, k.m[o].addr, addr)
    {
      assert o in k.m.Keys;
      var t := o - base;
      assert IsTried(k.m[base + t], trieds[from[t]]);
    }
    if TriedSlot(pl, k.triedT, addr) != EMPTY {
      SlotHolder(pl, k, addr);
    }
  }

  lemma SlotHolder(pl: Placement, k: Books, addr: Service)
    requires Sound(pl, k) && Dim(k.triedT, TRIED_BUCKETS) && TriedSlot(pl, k.triedT, addr) != EMPTY
    ensures var o := TriedSlot(pl, k.triedT, addr); o in k.triedIds && o in k.m && SameSlot(pl, k.m[o].addr, addr)
  {
  }

  /** The first `j` saved tried entries have been dealt with; `m0` are the new entries as loaded. */
  ghost predicate TriedState(k: Books, m0: Infos, news: seq<Saved>, trieds: seq<Saved>, from: seq<nat>, j: nat) {
    && NewsIn(k.m, news, |news|) && TriedsIn(k.m, trieds, |news|, from, j)
    && IdsBelow(k.m.Keys, |news| + |from|) && k.nIdCount == |news| + |from| && k.nTried == |from|
    && (forall n :: n in k.triedIds ==> n >= |news|)
    && (forall n :: 0 <= n < |news| ==> n in m0 && k.m[n] == m0[n])
  }

  lemma TriedTaken(pl: Placement, k: Books, m0: Infos, news: seq<Saved>, trieds: seq<Saved>, from: seq<nat>, j: nat)
    requires TriedState(k, m0, news, trieds, from, j) && j < |trieds| && Dim(k.triedT, TRIED_BUCKETS)
    ensures TriedState(AppendTried(pl, k, Loaded(trieds[j])), m0, news, trieds, from + [j], j + 1)
  {
    var k' := AppendTried(pl, k, Loaded(trieds[j]));
    var n := k.nIdCount;
    assert n !in k.m.Keys;
    forall t | 0 <= t < |from + [j]|
      ensures |news| + t in k'.m && IsTried(k'.m[|news| + t], trieds[(from + [j])[t]])
    {
      if t < |from| {
        assert |news| + t in k.m && |news| + t != n;
        assert IsTried(k.m[|news| + t], trieds[from[t]]);
      }
    }
    assert k'.m.Keys == k.m.Keys + {n};
  }

  lemma TriedDropped(k: Books, m0: Infos, news: seq<Saved>, trieds: seq<Saved>, from: seq<nat>, j: nat)
    requires TriedState(k, m0, news, trieds, from, j) && j < |trieds|
    ensures TriedState(k, m0, news, trieds, from, j + 1)
  {
  }

  /** The first `j` entries of the tried table have been dealt with. */
  ghost predicate TriedsRun(
    pl: Placement, k: Books, m0: Infos, news: seq<Saved>, trieds: seq<Saved>, from: seq<nat>, j: nat)
  {
    && Sound(pl, k) && (DistinctAddrs(news + trieds) ==> Keyed(k.m, k.byAddr))
    && k.nNew == |news| && IdsBelow(k.newIds, |news|)
    && TriedState(k, m0, news, trieds, from, j)
    && (SlotsDiffer(pl, trieds) ==> NoneLost(from, j))
  }

  lemma TriedsRunStart(pl: Placement, k: Books, news: seq<Saved>, trieds: seq<Saved>)
    requires NewsRun(pl, k, news, |news|)
    ensures TriedsRun(pl, k, k.m, news, trieds, [], 0)
  {
    NoTriedYet(pl, k);
    hide Sound, Keyed;
    if DistinctAddrs(news + trieds) {
      FirstDistinct(news, trieds);
    }
  }

  lemma FirstDistinct(a: seq<Saved>, b: seq<Saved>)
    requires DistinctAddrs(a + b)
    ensures DistinctAddrs(a)
  {
    forall i, j | 0 <= i < j < |a|
      ensures a[i].addr != a[j].addr
    {
      assert (a + b)[i] == a[i] && (a + b)[j] == a[j];
    }
  }

  lemma TriedsRunDim(pl: Placement, k: Books, m0: Infos, news: seq<Saved>, trieds: seq<Saved>, from: seq<nat>, j: nat)
    requires TriedsRun(pl, k, m0, news, trieds, from, j)
    ensures Dim(k.triedT, TRIED_BUCKETS)
  {
  }

  lemma TriedsRunTaken(pl: Placement, k: Books, m0: Infos, news: seq<Saved>, trieds: seq<Saved>, from: seq<nat>, j: nat)
    requires TriedsRun(pl, k, m0, news, trieds, from, j) && j < |trieds| && Dim(k.triedT, TRIED_BUCKETS)
    requires TriedSlot(pl, k.triedT, trieds[j].addr) == EMPTY
    ensures TriedsRun(pl, AppendTried(pl, k, Loaded(trieds[j])), m0, news, trieds, from + [j], j + 1)
  {
    hide Sound, Keyed, DistinctAddrs, SlotsDiffer, TriedState, TriedSlot;
    TriedNext(pl, k, m0, news, trieds, from, j);
    AppendTriedSound(pl, k, Loaded(trieds[j]));
    TriedTaken(pl, k, m0, news, trieds, from, j);
  }

  lemma TriedsRunDropped(
    pl: Placement, k: Books, m0: Infos, news: seq<Saved>, trieds: seq<Saved>, from: seq<nat>, j: nat)
    requires TriedsRun(pl, k, m0, news, trieds, from, j) && j < |trieds| && Dim(k.triedT, TRIED_BUCKETS)
    requires !pl.valid(trieds[j].addr) || TriedSlot(pl, k.triedT, trieds[j].addr) != EMPTY
    ensures TriedsRun(pl, k, m0, news, trieds, from, j + 1)
  {
    hide Sound, Keyed, DistinctAddrs, SlotsDiffer, TriedState, TriedSlot;
    TriedNext(pl, k, m0, news, trieds, from, j);
    TriedDropped(k, m0, news, trieds, from, j);
  }

  lemma TriedNext(pl: Placement, k: Books, m0: Infos, news: seq<Saved>, trieds: seq<Saved>, from: seq<nat>, j: nat)
    requires Sound(pl, k) && TriedState(k, m0, news, trieds, from, j) && j < |trieds| && Dim(k.triedT, TRIED_BUCKETS)
    ensures (DistinctAddrs(news + trieds) ==> trieds[j].addr !in k.byAddr) && k.nIdCount >= 0
    ensures var b := pl.TriedBucket(trieds[j].addr);
      && TriedSlot(pl, k.triedT, trieds[j].addr) == k.triedT[b][pl.Position(false, b, trieds[j].addr)]
      && (SlotsDiffer(pl, trieds) ==> pl.valid(trieds[j].addr) && TriedSlot(pl, k.triedT, trieds[j].addr) == EMPTY)
  {
    hide Sound;
    if DistinctAddrs(news + trieds) {
      TriedFree(pl, k, news, trieds, from, j);
    }
    if SlotsDiffer(pl, trieds) {
      NextSlotFree(pl, k, trieds, |news|, from, j);
    }
  }

  /** The slot of every valid entry read so far is taken, by it or by another. */
  ghost predicate SlotsTaken(pl: Placement, t: Table, trieds: seq<Saved>, j: nat) {
    && j <= |trieds| && Dim(t, TRIED_BUCKETS)
    && forall i :: 0 <= i < j && pl.valid(trieds[i].addr) ==> TriedSlot(pl, t, trieds[i].addr) != EMPTY
  }

  lemma NextSlotTaken(pl: Placement, t: Table, t': Table, trieds: seq<Saved>, j: nat, id: int)
    requires SlotsTaken(pl, t, trieds, j) && j < |trieds| && id != EMPTY
    requires var addr := trieds[j].addr; var b := pl.TriedBucket(addr);
      t' == if pl.valid(addr) && TriedSlot(pl, t, addr) == EMPTY then Put(t, b, pl.Position(false, b, addr), id) else t
    ensures SlotsTaken(pl, t', trieds, j + 1)
  {
  }

  /** Reads the tried entries, dropping those that are not valid or whose slot is taken. */
  method LoadTrieds(
    a: AddrManImpl, trieds: seq<Saved>, ghost news: seq<Saved>) returns (nLost: nat, ghost from: seq<nat>)
    requires NewsRun(a.pl, Counting(a.Now(), |news|, 0, |news|), news, |news|) && a.nIdCount == |news|
    modifies a`mapInfo, a`mapAddr, a`vRandom, a`networkCounts, a`vvTried, a`triedIds, a`nIdCount
    ensures nLost + |from| == |trieds|
    ensures TriedsRun(a.pl, Counting(a.Now(), |news|, |from|, a.nIdCount), old(a.mapInfo), news, trieds, from, |trieds|)
    ensures SlotsTaken(a.pl, a.vvTried, trieds, |trieds|)
  {
    hide NewsRun, TriedsRun, TriedSlot, AppendTried, Dim, SlotsTaken;
    nLost, from := 0, [];
    ghost var m0 := a.mapInfo;
    TriedsRunStart(a.pl, Counting(a.Now(), |news|, 0, |news|), news, trieds);
    TriedsRunDim(a.pl, Counting(a.Now(), |news|, 0, |news|), m0, news, trieds, [], 0);
    NoSlotYet(a.pl, a.vvTried, trieds);
    for j := 0 to |trieds|
      invariant nLost + |from| == j && a.nIdCount >= 0
      invariant SlotsTaken(a.pl, a.vvTried, trieds, j)
      invariant TriedsRun(a.pl, Counting(a.Now(), |news|, |from|, a.nIdCount), m0, news, trieds, from, j)
    {
      ghost var k := Counting(a.Now(), |news|, |from|, a.nIdCount);
      TriedsRunDim(a.pl, k, m0, news, trieds, from, j);
      ghost var t, id := a.vvTried, a.nIdCount;
      var taken := LoadTried(a, Loaded(trieds[j]), |news|, |from|);
      NextSlotTaken(a.pl, t, a.vvTried, trieds, j, id);
      if taken {
        TriedsRunTaken(a.pl, k, m0, news, trieds, from, j);
        from := from + [j];
      } else {
        TriedsRunDropped(a.pl, k, m0, news, trieds, from, j);
        nLost := nLost + 1;
      }
    }
  }

  /** Gives a tried entry its own slot, if it is valid and the slot is free. */
  method LoadTried(a: AddrManImpl, info: AddrInfo, ghost nNew: int, ghost nTried: int) returns (taken: bool)
    requires Dim(a.vvTried, TRIED_BUCKETS)
    modifies a`mapInfo, a`mapAddr, a`vRandom, a`networkCounts, a`vvTried, a`triedIds, a`nIdCount
    ensures taken <==> a.pl.valid(info.addr) && TriedSlot(a.pl, old(a.vvTried), info.addr) == EMPTY
    ensures taken ==> a.nIdCount == old(a.nIdCount) + 1
    ensures taken ==> var b := a.pl.TriedBucket(info.addr);
      a.vvTried == Put(old(a.vvTried), b, a.pl.Position(false, b, info.addr), old(a.nIdCount))
    ensures !taken ==> a.Now() == old(a.Now())
    ensures var k := Counting(old(a.Now()), nNew, nTried, old(a.nIdCount));
            taken ==> Counting(a.Now(), nNew, nTried + 1, a.nIdCount) == AppendTried(a.pl, k, info)
  {
    var b := a.pl.TriedBucket(info.addr);
    var p := a.pl.Position(false, b, info.addr);
    taken := a.pl.valid(info.addr) && a.vvTried[b][p] == EMPTY;
    if taken {
      InsertTried(a, info, b, p, nNew, nTried);
    }
  }

  method InsertTried(a: AddrManImpl, info: AddrInfo, b: nat, p: nat, ghost nNew: int, ghost nTried: int)
    requires Dim(a.vvTried, TRIED_BUCKETS) && b == a.pl.TriedBucket(info.addr)
    requires p == a.pl.Position(false, b, info.addr)
    modifies a`mapInfo, a`mapAddr, a`vRandom, a`networkCounts, a`vvTried, a`triedIds, a`nIdCount
    ensures Counting(a.Now(), nNew, nTried + 1, a.nIdCount)
         == AppendTried(a.pl, Counting(old(a.Now()), nNew, nTried, old(a.nIdCount)), info)
    ensures a.nIdCount == old(a.nIdCount) + 1 && a.vvTried == Put(old(a.vvTried), b, p, old(a.nIdCount))
  {
    var n := a.nIdCount;
    a.mapInfo := a.mapInfo[n := info.(nRandomPos := |a.vRandom|, fInTried := true)];
    a.vRandom := a.vRandom + [n];
    a.mapAddr := a.mapAddr[info.addr := n];
    a.vvTried := Put(a.vvTried, b, p, n);
    a.nIdCount := n + 1;
    a.networkCounts := Bump(a.networkCounts, a.pl.network(info.addr), 0, 1);
    a.triedIds := a.triedIds + {n};
  }

  lemma NoSlotYet(pl: Placement, t: Table, trieds: seq<Saved>)
    requires Dim(t, TRIED_BUCKETS)
    ensures SlotsTaken(pl, t, trieds, 0)
  {
  }

  lemma NoTriedYet(pl: Placement, k: Books)
    requires Sound(pl, k) && k.nTried == 0
    ensures k.triedIds == {}
  {
  }
}
