/**
 The data of the address manager and the rules that keep its redundant parts in
 step: entries by id, ids by address, the random order, the table of new addresses
 with its reference counts, the table of tried addresses, and the counters.

 Each rule is a predicate over plain values; the lemmas say how the table rules move
 under the single writes the address manager is built from.
 */
module AddrTables {
  type NetAddr = nat
  type Network = nat

  /** An address with its port. */
  datatype Service = Service(ip: NetAddr, port: nat)

  const NEW_BUCKETS := 1024
  const TRIED_BUCKETS := 256
  const BUCKET_SIZE := 64
  const NEW_BUCKETS_PER_ADDRESS := 8
  const EMPTY := -1

  /**
   What the secret key and the net groups decide. The hashes are unconstrained;
   only their reduction to a bucket and a position is part of the model.
   */
  datatype Placement = Placement(
    triedHash: Service -> nat,
    newHash: (Service, NetAddr) -> nat,
    positionHash: (bool, int, Service) -> nat,
    network: Service -> Network,
    netClass: Service -> Network,
    routable: Service -> bool,
    valid: Service -> bool)
  {
    function TriedBucket(a: Service): (b: nat)
      ensures b < TRIED_BUCKETS
    {
      triedHash(a) % TRIED_BUCKETS
    }

    function NewBucket(a: Service, source: NetAddr): (b: nat)
      ensures b < NEW_BUCKETS
    {
      newHash(a, source) % NEW_BUCKETS
    }

    function Position(isNew: bool, bucket: int, a: Service): (p: nat)
      ensures p < BUCKET_SIZE
    {
      positionHash(isNew, bucket, a) % BUCKET_SIZE
    }
  }

  datatype AddrInfo = AddrInfo(
    addr: Service, source: NetAddr, nTime: int, nServices: set<nat>,
    lastTry: int, lastCountAttempt: int, lastSuccess: int,
    nAttempts: int, nRefCount: int, fInTried: bool, nRandomPos: int)

  type Infos = map<int, AddrInfo>

  // ---------- tables ----------

  type Table = seq<seq<int>>

  ghost predicate Dim(t: Table, buckets: nat) {
    |t| == buckets && forall b :: 0 <= b < buckets ==> |t[b]| == BUCKET_SIZE
  }

  function Put(t: Table, b: nat, p: nat, v: int): Table
    requires b < |t| && p < |t[b]|
  {
    t[b := t[b][p := v]]
  }

  /** The buckets of the new table that hold entry `n`. */
  ghost function Refs(pl: Placement, t: Table, n: int, a: Service): set<int>
    requires Dim(t, NEW_BUCKETS)
  {
    set b | 0 <= b < NEW_BUCKETS && t[b][pl.Position(true, b, a)] == n
  }

  /** Every occupied slot of the new table holds a known entry at its own position, and reference counts are exact. */
  ghost predicate NewTable(pl: Placement, m: Infos, t: Table) {
    && Dim(t, NEW_BUCKETS)
    && (forall b, p :: 0 <= b < NEW_BUCKETS && 0 <= p < BUCKET_SIZE && t[b][p] != EMPTY ==>
          t[b][p] in m && pl.Position(true, b, m[t[b][p]].addr) == p)
    && (forall n :: n in m ==> n != EMPTY && m[n].nRefCount == |Refs(pl, t, n, m[n].addr)|)
  }

  lemma RefsPut(pl: Placement, t: Table, b: nat, p: nat, v: int, n: int, a: Service)
    requires Dim(t, NEW_BUCKETS) && b < NEW_BUCKETS && p < BUCKET_SIZE
    ensures Dim(Put(t, b, p, v), NEW_BUCKETS)
    ensures Refs(pl, Put(t, b, p, v), n, a)
         == if pl.Position(true, b, a) != p then Refs(pl, t, n, a)
            else if v == n then Refs(pl, t, n, a) + {b}
            else Refs(pl, t, n, a) - {b}
  {
  }

  /** Emptying a slot and dropping one reference keeps the counts exact; the count was positive. */
  lemma ClearSlotOk(pl: Placement, m: Infos, t: Table, b: nat, p: nat)
    requires NewTable(pl, m, t) && b < NEW_BUCKETS && p < BUCKET_SIZE && t[b][p] != EMPTY
    ensures var n := t[b][p];
            && n in m && m[n].nRefCount > 0
            && NewTable(pl, m[n := m[n].(nRefCount := m[n].nRefCount - 1)], Put(t, b, p, EMPTY))
  {
    var n := t[b][p];
    var t', m' := Put(t, b, p, EMPTY), m[n := m[n].(nRefCount := m[n].nRefCount - 1)];
    assert b in Refs(pl, t, n, m[n].addr);
    forall k | k in m' ensures m'[k].nRefCount == |Refs(pl, t', k, m'[k].addr)| {
      RefsPut(pl, t, b, p, EMPTY, k, m[k].addr);
      if k != n {
        assert b !in Refs(pl, t, k, m[k].addr) || pl.Position(true, b, m[k].addr) != p;
        assert Refs(pl, t', k, m[k].addr) == Refs(pl, t, k, m[k].addr);
      }
    }
  }

  /** Filling an empty slot that is the entry's own and adding one reference keeps the counts exact. */
  lemma FillSlotOk(pl: Placement, m: Infos, t: Table, b: nat, p: nat, n: int)
    requires NewTable(pl, m, t) && b < NEW_BUCKETS && p < BUCKET_SIZE && t[b][p] == EMPTY
    requires n in m && pl.Position(true, b, m[n].addr) == p
    ensures NewTable(pl, m[n := m[n].(nRefCount := m[n].nRefCount + 1)], Put(t, b, p, n))
  {
    var t', m' := Put(t, b, p, n), m[n := m[n].(nRefCount := m[n].nRefCount + 1)];
    assert b !in Refs(pl, t, n, m[n].addr);
    forall k | k in m' ensures m'[k].nRefCount == |Refs(pl, t', k, m'[k].addr)| {
      RefsPut(pl, t, b, p, n, k, m[k].addr);
      if k != n {
        assert b !in Refs(pl, t, k, m[k].addr) || pl.Position(true, b, m[k].addr) != p;
        assert Refs(pl, t', k, m[k].addr) == Refs(pl, t, k, m[k].addr);
      }
    }
  }

  /** An entry without references is in no slot, so it can be removed. */
  lemma UnreferencedNowhere(pl: Placement, m: Infos, t: Table, n: int, b: int, p: int)
    requires NewTable(pl, m, t) && n in m && m[n].nRefCount == 0
    requires 0 <= b < NEW_BUCKETS && 0 <= p < BUCKET_SIZE
    ensures t[b][p] != n
  {
    var refs := Refs(pl, t, n, m[n].addr);
    assert refs == {} && b !in refs;
  }

  lemma RemoveEntryOk(pl: Placement, m: Infos, t: Table, n: int)
    requires NewTable(pl, m, t) && n in m && m[n].nRefCount == 0
    ensures NewTable(pl, m - {n}, t)
  {
    forall b, p | 0 <= b < NEW_BUCKETS && 0 <= p < BUCKET_SIZE ensures t[b][p] != n {
      UnreferencedNowhere(pl, m, t, n, b, p);
    }
  }

  lemma AddEntryOk(pl: Placement, m: Infos, t: Table, n: int, info: AddrInfo)
    requires NewTable(pl, m, t) && n !in m && n != EMPTY && info.nRefCount == 0
    ensures NewTable(pl, m[n := info], t)
  {
    assert Refs(pl, t, n, info.addr) == {};
  }

  /** Entries that differ only in what the tables do not record. */
  predicate SamePlace(i: AddrInfo, j: AddrInfo) {
    i.addr == j.addr && i.nRefCount == j.nRefCount && i.fInTried == j.fInTried
  }

  ghost predicate SamePlaces(m: Infos, m': Infos) {
    m'.Keys == m.Keys && forall n :: n in m ==> SamePlace(m[n], m'[n])
  }

  lemma NewTableMoves(pl: Placement, m: Infos, m': Infos, t: Table)
    requires NewTable(pl, m, t) && SamePlaces(m, m')
    ensures NewTable(pl, m', t)
  {
  }

  /** The tried table holds exactly the tried entries, each in its own slot. */
  ghost predicate TriedTable(pl: Placement, m: Infos, t: Table, tried: set<int>) {
    && Dim(t, TRIED_BUCKETS)
    && (forall b, p :: 0 <= b < TRIED_BUCKETS && 0 <= p < BUCKET_SIZE && t[b][p] != EMPTY ==> t[b][p] in tried)
    && (forall n :: n in tried ==> n in m && n != EMPTY)
    && (forall b, p :: 0 <= b < TRIED_BUCKETS && 0 <= p < BUCKET_SIZE && t[b][p] != EMPTY ==>
          b == pl.TriedBucket(m[t[b][p]].addr) && p == pl.Position(false, b, m[t[b][p]].addr))
    && (forall n :: n in tried ==> TriedSlot(pl, t, m[n].addr) == n)
  }

  ghost function TriedSlot(pl: Placement, t: Table, a: Service): int
    requires Dim(t, TRIED_BUCKETS)
  {
    var b := pl.TriedBucket(a);
    t[b][pl.Position(false, b, a)]
  }

  lemma EvictOk(pl: Placement, m: Infos, t: Table, tried: set<int>, b: nat, p: nat)
    requires TriedTable(pl, m, t, tried) && b < TRIED_BUCKETS && p < BUCKET_SIZE && t[b][p] != EMPTY
    ensures TriedTable(pl, m, Put(t, b, p, EMPTY), tried - {t[b][p]})
  {
  }

  lemma InstallOk(pl: Placement, m: Infos, t: Table, tried: set<int>, n: int)
    requires TriedTable(pl, m, t, tried) && n in m && n != EMPTY && TriedSlot(pl, t, m[n].addr) == EMPTY
    ensures var b := pl.TriedBucket(m[n].addr);
            TriedTable(pl, m, Put(t, b, pl.Position(false, b, m[n].addr), n), tried + {n})
  {
  }

  // ---------- ids and random order ----------

  /** Ids by address and addresses by id are inverse, and ids are below the counter. */
  ghost predicate Index(m: Infos, byAddr: map<Service, int>, nIdCount: int) {
    && (forall n :: n in m ==> 0 <= n < nIdCount && m[n].addr in byAddr && byAddr[m[n].addr] == n)
    && (forall a :: a in byAddr ==> byAddr[a] in m && m[byAddr[a]].addr == a)
  }

  /** The random order lists each id once, at the position its entry records. */
  ghost predicate Shuffled(m: Infos, v: seq<int>) {
    && (forall n :: n in m ==> 0 <= m[n].nRandomPos < |v| && v[m[n].nRandomPos] == n)
    && (forall i :: 0 <= i < |v| ==> v[i] in m && m[v[i]].nRandomPos == i)
  }

  lemma {:induction false} ShuffledSize(m: Infos, v: seq<int>)
    requires Shuffled(m, v)
    ensures |v| == |m|
    decreases |v|
  {
    if v == [] {
      assert forall n :: n !in m;
    } else {
      var last := v[|v| - 1];
      assert last in m;
      ShuffledSize(m - {last}, v[..|v| - 1]);
      assert (m - {last}).Keys == m.Keys - {last};
    }
  }

  /** Swapping two places of the random order, entries following. */
  function SwappedInfos(m: Infos, n1: int, n2: int, p1: int, p2: int): Infos
    requires n1 in m && n2 in m
  {
    var m1 := m[n1 := m[n1].(nRandomPos := p2)];
    m1[n2 := m1[n2].(nRandomPos := p1)]
  }

  lemma SwapOk(m: Infos, v: seq<int>, p1: int, p2: int)
    requires Shuffled(m, v) && 0 <= p1 < |v| && 0 <= p2 < |v|
    ensures v[p1] in m && v[p2] in m
    ensures Shuffled(SwappedInfos(m, v[p1], v[p2], p1, p2), v[p1 := v[p2]][p2 := v[p1]])
    ensures SamePlaces(m, SwappedInfos(m, v[p1], v[p2], p1, p2))
  {
  }

  // ---------- counters ----------

  datatype NewTried = NewTried(nNew: int, nTried: int)
  type NetCounts = map<Network, NewTried>

  ghost function OnNet(pl: Placement, m: Infos, ids: set<int>, net: Network): set<int> {
    set n | n in ids && n in m && pl.network(m[n].addr) == net
  }

  /** The counters are the sizes of the two sets of ids, in all and per network. */
  ghost predicate Counted(
    pl: Placement, m: Infos, newIds: set<int>, triedIds: set<int>, nNew: int, nTried: int, counts: NetCounts)
  {
    && nNew == |newIds| && nTried == |triedIds|
    && newIds <= m.Keys && triedIds <= m.Keys
    && (forall n :: n in newIds || n in triedIds ==> pl.network(m[n].addr) in counts)
    && (forall net :: net in counts ==>
          && counts[net].nNew == |OnNet(pl, m, newIds, net)|
          && counts[net].nTried == |OnNet(pl, m, triedIds, net)|)
  }

  function Bump(counts: NetCounts, net: Network, dNew: int, dTried: int): NetCounts {
    var c := if net in counts then counts[net] else NewTried(0, 0);
    counts[net := NewTried(c.nNew + dNew, c.nTried + dTried)]
  }

  lemma OnNetAdd(pl: Placement, m: Infos, ids: set<int>, net: Network, n: int)
    requires n in m && n !in ids
    ensures OnNet(pl, m, ids + {n}, net) == OnNet(pl, m, ids, net) + if pl.network(m[n].addr) == net then {n} else {}
    ensures |OnNet(pl, m, ids + {n}, net)| == |OnNet(pl, m, ids, net)| + if pl.network(m[n].addr) == net then 1 else 0
  {
  }

  lemma CountNew(
    pl: Placement, m: Infos, newIds: set<int>, triedIds: set<int>, nNew: int, nTried: int, counts: NetCounts, n: int)
    requires Counted(pl, m, newIds, triedIds, nNew, nTried, counts) && n in m && n !in newIds
    ensures Counted(pl, m, newIds + {n}, triedIds, nNew + 1, nTried, Bump(counts, pl.network(m[n].addr), 1, 0))
  {
    forall net
      ensures |OnNet(pl, m, newIds + {n}, net)| ==
        |OnNet(pl, m, newIds, net)| + if pl.network(m[n].addr) == net then 1 else 0
    {
      OnNetAdd(pl, m, newIds, net, n);
    }
    AbsentNet(pl, m, newIds, triedIds, nNew, nTried, counts, pl.network(m[n].addr));
  }

  lemma AbsentNet(
    pl: Placement, m: Infos, newIds: set<int>, triedIds: set<int>, nNew: int, nTried: int, counts: NetCounts,
    net: Network)
    requires Counted(pl, m, newIds, triedIds, nNew, nTried, counts)
    ensures net !in counts ==> OnNet(pl, m, newIds, net) == {} && OnNet(pl, m, triedIds, net) == {}
  {
    if net !in counts {
      forall n | n in newIds || n in triedIds ensures pl.network(m[n].addr) != net {
      }
    }
  }

  lemma CountTried(
    pl: Placement, m: Infos, newIds: set<int>, triedIds: set<int>, nNew: int, nTried: int, counts: NetCounts, n: int)
    requires Counted(pl, m, newIds, triedIds, nNew, nTried, counts) && n in m && n !in triedIds
    ensures Counted(pl, m, newIds, triedIds + {n}, nNew, nTried + 1, Bump(counts, pl.network(m[n].addr), 0, 1))
  {
    forall net
      ensures |OnNet(pl, m, triedIds + {n}, net)| ==
        |OnNet(pl, m, triedIds, net)| + if pl.network(m[n].addr) == net then 1 else 0
    {
      OnNetAdd(pl, m, triedIds, net, n);
    }
    AbsentNet(pl, m, newIds, triedIds, nNew, nTried, counts, pl.network(m[n].addr));
  }

  lemma UncountNew(
    pl: Placement, m: Infos, newIds: set<int>, triedIds: set<int>, nNew: int, nTried: int, counts: NetCounts, n: int)
    requires Counted(pl, m, newIds, triedIds, nNew, nTried, counts) && n in newIds
    ensures Counted(pl, m, newIds - {n}, triedIds, nNew - 1, nTried, Bump(counts, pl.network(m[n].addr), -1, 0))
  {
    assert newIds - {n} + {n} == newIds;
    forall net
      ensures |OnNet(pl, m, newIds, net)| ==
        |OnNet(pl, m, newIds - {n}, net)| + if pl.network(m[n].addr) == net then 1 else 0
    {
      OnNetAdd(pl, m, newIds - {n}, net, n);
    }
  }

  lemma UncountTried(
    pl: Placement, m: Infos, newIds: set<int>, triedIds: set<int>, nNew: int, nTried: int, counts: NetCounts, n: int)
    requires Counted(pl, m, newIds, triedIds, nNew, nTried, counts) && n in triedIds
    ensures Counted(pl, m, newIds, triedIds - {n}, nNew, nTried - 1, Bump(counts, pl.network(m[n].addr), 0, -1))
  {
    assert triedIds - {n} + {n} == triedIds;
    forall net
      ensures |OnNet(pl, m, triedIds, net)| ==
        |OnNet(pl, m, triedIds - {n}, net)| + if pl.network(m[n].addr) == net then 1 else 0
    {
      OnNetAdd(pl, m, triedIds - {n}, net, n);
    }
  }

  /** Counters only look at which ids there are and where their addresses are. */
  lemma CountedMoves(
    pl: Placement, m: Infos, m': Infos, newIds: set<int>, triedIds: set<int>, nNew: int, nTried: int, counts: NetCounts)
    requires Counted(pl, m, newIds, triedIds, nNew, nTried, counts)
    requires newIds + triedIds <= m'.Keys
    requires forall n :: n in newIds || n in triedIds ==> m'[n].addr == m[n].addr
    ensures Counted(pl, m', newIds, triedIds, nNew, nTried, counts)
  {
    forall net
      ensures OnNet(pl, m', newIds, net) == OnNet(pl, m, newIds, net)
      ensures OnNet(pl, m', triedIds, net) == OnNet(pl, m, triedIds, net)
    {
      SameOnNet(pl, m, m', newIds, net);
      SameOnNet(pl, m, m', triedIds, net);
    }
  }

  lemma SameOnNet(pl: Placement, m: Infos, m': Infos, ids: set<int>, net: Network)
    requires ids <= m.Keys && ids <= m'.Keys
    requires forall n :: n in ids ==> m'[n].addr == m[n].addr
    ensures OnNet(pl, m', ids, net) == OnNet(pl, m, ids, net)
  {
    forall n | n in ids ensures n in OnNet(pl, m', ids, net) <==> n in OnNet(pl, m, ids, net) {
      assert m'[n].addr == m[n].addr;
    }
  }

  // ---------- flags and times ----------

  /** The tried flag says which set an entry is in; times are sane and a tried entry has once been reached. */
  ghost predicate Marked(m: Infos, tried: set<int>) {
    forall n :: n in m ==>
      && (m[n].fInTried <==> n in tried)
      && m[n].lastTry >= 0 && m[n].lastSuccess >= 0
      && (n in tried ==> m[n].lastSuccess > 0)
  }

  /** Pending collisions: few, with ids already given out, and each against an occupied tried slot. */
  ghost predicate Pending(pl: Placement, m: Infos, t: Table, collisions: set<int>, nIdCount: int) {
    && Dim(t, TRIED_BUCKETS)
    && |collisions| <= MAX_COLLISIONS
    && forall n :: n in collisions ==> 0 <= n < nIdCount && (n in m ==> TriedSlot(pl, t, m[n].addr) != EMPTY)
  }

  const MAX_COLLISIONS := 10

  // ---------- one step to the next ----------

  /** No occupied slot has become empty. */
  ghost predicate StillFilled(t: Table, t': Table) {
    && |t| == |t'|
    && (forall b :: 0 <= b < |t| ==> |t[b]| == |t'[b]|)
    && forall b, p :: 0 <= b < |t| && 0 <= p < |t[b]| && t[b][p] != EMPTY ==> t'[b][p] != EMPTY
  }

  /** Entries keep their address, and ids that were given out and forgotten do not come back. */
  ghost predicate IdsAge(m: Infos, nIdCount: int, m': Infos, nIdCount': int) {
    && nIdCount <= nIdCount'
    && forall n :: n in m' ==> (n in m && m'[n].addr == m[n].addr) || (n !in m && nIdCount <= n)
  }

  /** Nothing was added and what stays keeps its address. */
  ghost predicate Fewer(m: Infos, m': Infos) {
    m'.Keys <= m.Keys && forall n :: n in m' ==> m'[n].addr == m[n].addr
  }

  /** Pending collisions stay well placed when slots stay filled and ids age. */
  lemma PendingAges(pl: Placement, m: Infos, t: Table, c: set<int>, k: int, m': Infos, t': Table, c': set<int>, k': int)
    requires Pending(pl, m, t, c, k) && StillFilled(t, t') && IdsAge(m, k, m', k') && c' <= c
    ensures Pending(pl, m', t', c', k')
  {
    CardSubset(c', c);
    forall n | n in c' && n in m' ensures TriedSlot(pl, t', m'[n].addr) != EMPTY {
      assert n in m;
    }
  }

  lemma {:induction false} CardSubset(a: set<int>, b: set<int>)
    requires a <= b
    ensures |a| <= |b|
  {
    assert b == a + (b - a);
  }

  lemma AgesThrough(m: Infos, k: int, t: Table, m1: Infos, k1: int, t1: Table, m2: Infos, k2: int, t2: Table)
    requires IdsAge(m, k, m1, k1) && StillFilled(t, t1) && IdsAge(m1, k1, m2, k2) && StillFilled(t1, t2)
    requires forall n :: n in m ==> n < k
    ensures IdsAge(m, k, m2, k2) && StillFilled(t, t2)
  {
  }

  // ---------- the books ----------

  /** All redundant structures together, with the two sets of ids the counters count. */
  datatype Books = Books(
    m: Infos, byAddr: map<Service, int>, nIdCount: int, order: seq<int>,
    newT: Table, triedT: Table, newIds: set<int>, triedIds: set<int>,
    nNew: int, nTried: int, counts: NetCounts)

  /** What holds throughout, even in the middle of an operation. */
  ghost predicate Kept(pl: Placement, k: Books) {
    && Index(k.m, k.byAddr, k.nIdCount)
    && Shuffled(k.m, k.order)
    && NewTable(pl, k.m, k.newT)
    && TriedTable(pl, k.m, k.triedT, k.triedIds)
    && Counted(pl, k.m, k.newIds, k.triedIds, k.nNew, k.nTried, k.counts)
    && Marked(k.m, k.triedIds)
    && k.newIds !! k.triedIds
  }

  /** Every entry is found by its address. */
  ghost predicate Keyed(m: Infos, byAddr: map<Service, int>) {
    forall n :: n in m ==> m[n].addr in byAddr && byAddr[m[n].addr] == n
  }

  /** Whatever is found by an address has it, and ids are below the counter. */
  ghost predicate Pointing(m: Infos, byAddr: map<Service, int>, nIdCount: int) {
    && (forall n :: n in m ==> 0 <= n < nIdCount)
    && (forall a :: a in byAddr ==> byAddr[a] in m && m[byAddr[a]].addr == a)
  }

  ghost predicate Timed(m: Infos, tried: set<int>) {
    forall n :: n in m ==> m[n].lastTry >= 0 && m[n].lastSuccess >= 0 && (n in tried ==> m[n].lastSuccess > 0)
  }

  /** What holds even while a file is read, whatever it says: an address may be there twice, and times may be off. */
  ghost predicate Sound(pl: Placement, k: Books) {
    && Pointing(k.m, k.byAddr, k.nIdCount)
    && Shuffled(k.m, k.order)
    && NewTable(pl, k.m, k.newT)
    && TriedTable(pl, k.m, k.triedT, k.triedIds)
    && Counted(pl, k.m, k.newIds, k.triedIds, k.nNew, k.nTried, k.counts)
    && (forall n :: n in k.m ==> (k.m[n].fInTried <==> n in k.triedIds))
    && k.newIds !! k.triedIds
  }

  lemma KeptIff(pl: Placement, k: Books)
    ensures Kept(pl, k) <==> Sound(pl, k) && Keyed(k.m, k.byAddr) && Timed(k.m, k.triedIds)
  {
    hide Shuffled, NewTable, TriedTable, Counted;
  }

  /** Addresses and times as before, but for the success of entries that were not tried: a sound change keeps all. */
  lemma KeptOn(pl: Placement, k: Books, k': Books)
    requires Kept(pl, k) && Sound(pl, k') && k'.byAddr == k.byAddr && SameAddrs(k.m, k'.m)
    requires forall n :: n in k.m ==> k'.m[n].lastTry == k.m[n].lastTry && k'.m[n].lastSuccess == k.m[n].lastSuccess
    requires forall n :: n in k.m && n in k'.triedIds ==> n in k.triedIds || k.m[n].lastSuccess > 0
    ensures Kept(pl, k')
  {
    KeptIff(pl, k);
    KeptIff(pl, k');
    hide Kept, Sound;
  }

  // Each rule looks only at some fields of the entries; these lemmas carry it over when those fields stay.

  ghost predicate SameAddrs(m: Infos, m': Infos) {
    m'.Keys == m.Keys && forall n :: n in m ==> m'[n].addr == m[n].addr
  }

  lemma IndexMoves(m: Infos, m': Infos, byAddr: map<Service, int>, nIdCount: int)
    requires Index(m, byAddr, nIdCount) && SameAddrs(m, m')
    ensures Index(m', byAddr, nIdCount)
  {
  }

  lemma PointingMoves(m: Infos, m': Infos, byAddr: map<Service, int>, nIdCount: int)
    requires Pointing(m, byAddr, nIdCount) && SameAddrs(m, m')
    ensures Pointing(m', byAddr, nIdCount)
  {
  }

  lemma ShuffledMoves(m: Infos, m': Infos, v: seq<int>)
    requires Shuffled(m, v) && m'.Keys == m.Keys
    requires forall n :: n in m ==> m'[n].nRandomPos == m[n].nRandomPos
    ensures Shuffled(m', v)
  {
  }

  lemma TriedTableMoves(pl: Placement, m: Infos, m': Infos, t: Table, tried: set<int>)
    requires TriedTable(pl, m, t, tried)
    requires forall n :: n in tried ==> n in m' && m'[n].addr == m[n].addr
    ensures TriedTable(pl, m', t, tried)
  {
  }

  /** Entries that agree on everything the structures refer to. */
  predicate SameRole(i: AddrInfo, j: AddrInfo) {
    SamePlace(i, j) && i.nRandomPos == j.nRandomPos
  }

  function Touch(k: Books, n: int, info: AddrInfo): Books {
    k.(m := k.m[n := info])
  }

  lemma TouchKept(pl: Placement, k: Books, n: int, info: AddrInfo)
    requires Kept(pl, k) && n in k.m && SameRole(k.m[n], info)
    requires info.lastTry >= 0 && info.lastSuccess >= 0 && (n in k.triedIds ==> info.lastSuccess > 0)
    ensures Kept(pl, Touch(k, n, info))
  {
    hide Index, Shuffled, NewTable, TriedTable, Counted;
    var m' := k.m[n := info];
    CountedIds(pl, k.m, k.newIds, k.triedIds, k.nNew, k.nTried, k.counts);
    TriedIdsKnown(pl, k.m, k.triedT, k.triedIds);
    IndexMoves(k.m, m', k.byAddr, k.nIdCount);
    ShuffledMoves(k.m, m', k.order);
    NewTableMoves(pl, k.m, m', k.newT);
    TriedTableMoves(pl, k.m, m', k.triedT, k.triedIds);
    CountedMoves(pl, k.m, m', k.newIds, k.triedIds, k.nNew, k.nTried, k.counts);
  }

  lemma CountedIds(
    pl: Placement, m: Infos, newIds: set<int>, triedIds: set<int>, nNew: int, nTried: int, counts: NetCounts)
    requires Counted(pl, m, newIds, triedIds, nNew, nTried, counts)
    ensures newIds <= m.Keys && triedIds <= m.Keys
  {
  }

  lemma TriedIdsKnown(pl: Placement, m: Infos, t: Table, tried: set<int>)
    requires TriedTable(pl, m, t, tried)
    ensures Dim(t, TRIED_BUCKETS) && forall n :: n in tried ==> n in m && n != EMPTY
  {
  }

  function Swap(k: Books, p1: int, p2: int): Books
    requires 0 <= p1 < |k.order| && 0 <= p2 < |k.order| && k.order[p1] in k.m && k.order[p2] in k.m
  {
    k.(m := SwappedInfos(k.m, k.order[p1], k.order[p2], p1, p2),
       order := k.order[p1 := k.order[p2]][p2 := k.order[p1]])
  }

  lemma SwapSound(pl: Placement, k: Books, p1: int, p2: int)
    requires Sound(pl, k) && 0 <= p1 < |k.order| && 0 <= p2 < |k.order|
    ensures k.order[p1] in k.m && k.order[p2] in k.m
    ensures Sound(pl, Swap(k, p1, p2))
    ensures Kept(pl, k) ==> Kept(pl, Swap(k, p1, p2))
  {
    hide Index, Pointing, Shuffled, NewTable, TriedTable, Counted, Kept;
    SwapOk(k.m, k.order, p1, p2);
    var m' := Swap(k, p1, p2).m;
    CountedIds(pl, k.m, k.newIds, k.triedIds, k.nNew, k.nTried, k.counts);
    TriedIdsKnown(pl, k.m, k.triedT, k.triedIds);
    PointingMoves(k.m, m', k.byAddr, k.nIdCount);
    NewTableMoves(pl, k.m, m', k.newT);
    TriedTableMoves(pl, k.m, m', k.triedT, k.triedIds);
    CountedMoves(pl, k.m, m', k.newIds, k.triedIds, k.nNew, k.nTried, k.counts);
    if Kept(pl, k) {
      KeptOn(pl, k, Swap(k, p1, p2));
    }
  }

  /** Takes the last entry of the order out of everything. */
  function RemoveLast(pl: Placement, k: Books, n: int): Books
    requires |k.order| > 0 && n in k.m
  {
    k.(m := k.m - {n}, byAddr := k.byAddr - {k.m[n].addr}, order := k.order[..|k.order| - 1],
       newIds := k.newIds - {n}, nNew := k.nNew - 1, counts := Bump(k.counts, pl.network(k.m[n].addr), -1, 0))
  }

  lemma RemoveLastSound(pl: Placement, k: Books, n: int)
    requires Sound(pl, k) && n in k.newIds && n in k.m && k.m[n].nRefCount == 0
    requires |k.order| > 0 && k.order[|k.order| - 1] == n
    ensures Sound(pl, RemoveLast(pl, k, n))
    ensures Kept(pl, k) ==> Kept(pl, RemoveLast(pl, k, n))
  {
    hide Index, Pointing, Shuffled, NewTable, TriedTable, Counted, Kept, Keyed;
    CountedIds(pl, k.m, k.newIds, k.triedIds, k.nNew, k.nTried, k.counts);
    TriedIdsKnown(pl, k.m, k.triedT, k.triedIds);
    IndexRemove(k.m, k.byAddr, k.nIdCount, n);
    ShuffledRemove(k.m, k.order, n);
    TriedTableMoves(pl, k.m, k.m - {n}, k.triedT, k.triedIds);
    RemoveEntryOk(pl, k.m, k.newT, n);
    UncountNew(pl, k.m, k.newIds, k.triedIds, k.nNew, k.nTried, k.counts, n);
    CountedMoves(pl, k.m, k.m - {n}, k.newIds - {n}, k.triedIds, k.nNew - 1, k.nTried,
      Bump(k.counts, pl.network(k.m[n].addr), -1, 0));
    KeptIff(pl, k);
    KeptIff(pl, RemoveLast(pl, k, n));
  }

  lemma IndexRemove(m: Infos, byAddr: map<Service, int>, nIdCount: int, n: int)
    requires Pointing(m, byAddr, nIdCount) && n in m
    ensures Pointing(m - {n}, byAddr - {m[n].addr}, nIdCount)
    ensures Keyed(m, byAddr) ==> Keyed(m - {n}, byAddr - {m[n].addr})
  {
  }

  lemma ShuffledRemove(m: Infos, v: seq<int>, n: int)
    requires Shuffled(m, v) && |v| > 0 && v[|v| - 1] == n
    ensures Shuffled(m - {n}, v[..|v| - 1])
  {
  }

  lemma IndexAppend(m: Infos, byAddr: map<Service, int>, nIdCount: int, info: AddrInfo)
    requires Pointing(m, byAddr, nIdCount) && 0 <= nIdCount
    ensures nIdCount !in m
    ensures Pointing(m[nIdCount := info], byAddr[info.addr := nIdCount], nIdCount + 1)
    ensures Keyed(m, byAddr) && info.addr !in byAddr ==> Keyed(m[nIdCount := info], byAddr[info.addr := nIdCount])
  {
  }

  lemma ShuffledAppend(m: Infos, v: seq<int>, n: int, info: AddrInfo)
    requires Shuffled(m, v) && n !in m && info.nRandomPos == |v|
    ensures Shuffled(m[n := info], v + [n])
  {
  }

  function Append(pl: Placement, k: Books, info: AddrInfo): Books {
    var n := k.nIdCount;
    k.(m := k.m[n := info.(nRandomPos := |k.order|)], byAddr := k.byAddr[info.addr := n], nIdCount := n + 1,
       order := k.order + [n], newIds := k.newIds + {n}, nNew := k.nNew + 1,
       counts := Bump(k.counts, pl.network(info.addr), 1, 0))
  }

  lemma AppendSound(pl: Placement, k: Books, info: AddrInfo)
    requires Sound(pl, k) && 0 <= k.nIdCount && info.nRefCount == 0 && !info.fInTried
    ensures Sound(pl, Append(pl, k, info))
    ensures Keyed(k.m, k.byAddr) && info.addr !in k.byAddr ==> Keyed(Append(pl, k, info).m, Append(pl, k, info).byAddr)
  {
    hide Pointing, Shuffled, NewTable, TriedTable, Counted, Keyed;
    var n, m' := k.nIdCount, Append(pl, k, info).m;
    IndexAppend(k.m, k.byAddr, n, m'[n]);
    CountedIds(pl, k.m, k.newIds, k.triedIds, k.nNew, k.nTried, k.counts);
    TriedIdsKnown(pl, k.m, k.triedT, k.triedIds);
    ShuffledAppend(k.m, k.order, n, m'[n]);
    TriedTableMoves(pl, k.m, m', k.triedT, k.triedIds);
    AddEntryOk(pl, k.m, k.newT, n, m'[n]);
    CountedMoves(pl, k.m, m', k.newIds, k.triedIds, k.nNew, k.nTried, k.counts);
    CountNew(pl, m', k.newIds, k.triedIds, k.nNew, k.nTried, k.counts, n);
  }

  lemma AppendKept(pl: Placement, k: Books, info: AddrInfo)
    requires Kept(pl, k) && 0 <= k.nIdCount && info.addr !in k.byAddr
    requires info.nRefCount == 0 && !info.fInTried && info.lastTry >= 0 && info.lastSuccess >= 0
    ensures Kept(pl, Append(pl, k, info))
  {
    NextIdUnused(pl, k);
    KeptIff(pl, k);
    KeptIff(pl, Append(pl, k, info));
    hide Kept, Sound, Keyed;
    AppendSound(pl, k, info);
  }

  function SetRefs(m: Infos, n: int, refs: int): Infos
    requires n in m
  {
    m[n := m[n].(nRefCount := refs)]
  }

  /** Only the new table and one reference count move. */
  function Reslot(k: Books, b: nat, p: nat, slot: int, n: int, refs: int): Books
    requires n in k.m && b < |k.newT| && p < |k.newT[b]|
  {
    k.(m := SetRefs(k.m, n, refs), newT := Put(k.newT, b, p, slot))
  }

  lemma ReslotSound(pl: Placement, k: Books, b: nat, p: nat, slot: int, n: int, refs: int)
    requires Sound(pl, k) && n in k.m && b < NEW_BUCKETS && p < BUCKET_SIZE
    requires Dim(k.newT, NEW_BUCKETS) && NewTable(pl, SetRefs(k.m, n, refs), Put(k.newT, b, p, slot))
    ensures Sound(pl, Reslot(k, b, p, slot, n, refs))
    ensures Kept(pl, k) ==> Kept(pl, Reslot(k, b, p, slot, n, refs))
  {
    hide Index, Pointing, Shuffled, NewTable, TriedTable, Counted, Kept;
    var m' := SetRefs(k.m, n, refs);
    CountedIds(pl, k.m, k.newIds, k.triedIds, k.nNew, k.nTried, k.counts);
    TriedIdsKnown(pl, k.m, k.triedT, k.triedIds);
    PointingMoves(k.m, m', k.byAddr, k.nIdCount);
    ShuffledMoves(k.m, m', k.order);
    TriedTableMoves(pl, k.m, m', k.triedT, k.triedIds);
    CountedMoves(pl, k.m, m', k.newIds, k.triedIds, k.nNew, k.nTried, k.counts);
    if Kept(pl, k) {
      KeptOn(pl, k, Reslot(k, b, p, slot, n, refs));
    }
  }

  lemma ClearKept(pl: Placement, k: Books, b: nat, p: nat)
    requires Kept(pl, k) && b < NEW_BUCKETS && p < BUCKET_SIZE && k.newT[b][p] != EMPTY
    ensures var n := k.newT[b][p];
            && n in k.m && k.m[n].nRefCount > 0
            && Kept(pl, Reslot(k, b, p, EMPTY, n, k.m[n].nRefCount - 1))
  {
    ClearSlotOk(pl, k.m, k.newT, b, p);
    KeptIff(pl, k);
    ReslotSound(pl, k, b, p, EMPTY, k.newT[b][p], k.m[k.newT[b][p]].nRefCount - 1);
  }

  lemma FillSound(pl: Placement, k: Books, b: nat, p: nat, n: int)
    requires Sound(pl, k) && b < NEW_BUCKETS && p < BUCKET_SIZE && k.newT[b][p] == EMPTY
    requires n in k.m && pl.Position(true, b, k.m[n].addr) == p
    ensures Sound(pl, Reslot(k, b, p, n, n, k.m[n].nRefCount + 1))
    ensures Kept(pl, k) ==> Kept(pl, Reslot(k, b, p, n, n, k.m[n].nRefCount + 1))
  {
    FillSlotOk(pl, k.m, k.newT, b, p, n);
    hide Kept;
    ReslotSound(pl, k, b, p, n, n, k.m[n].nRefCount + 1);
  }

  lemma FillKept(pl: Placement, k: Books, b: nat, p: nat, n: int)
    requires Kept(pl, k) && b < NEW_BUCKETS && p < BUCKET_SIZE && k.newT[b][p] == EMPTY
    requires n in k.m && pl.Position(true, b, k.m[n].addr) == p
    ensures Kept(pl, Reslot(k, b, p, n, n, k.m[n].nRefCount + 1))
  {
    KeptIff(pl, k);
    FillSound(pl, k, b, p, n);
  }

  /** Stops counting an entry as new while it is on its way to the tried table. */
  function LeaveNew(pl: Placement, k: Books, n: int): Books
    requires n in k.m
  {
    k.(newIds := k.newIds - {n}, nNew := k.nNew - 1, counts := Bump(k.counts, pl.network(k.m[n].addr), -1, 0))
  }

  lemma LeaveNewSound(pl: Placement, k: Books, n: int)
    requires Sound(pl, k) && n in k.newIds && n in k.m
    ensures Sound(pl, LeaveNew(pl, k, n))
  {
    UncountNew(pl, k.m, k.newIds, k.triedIds, k.nNew, k.nTried, k.counts, n);
  }

  lemma LeaveNewKept(pl: Placement, k: Books, n: int)
    requires Kept(pl, k) && n in k.newIds && n in k.m
    ensures Kept(pl, LeaveNew(pl, k, n))
  {
    UncountNew(pl, k.m, k.newIds, k.triedIds, k.nNew, k.nTried, k.counts, n);
  }

  function EnterNew(pl: Placement, k: Books, n: int): Books
    requires n in k.m
  {
    k.(newIds := k.newIds + {n}, nNew := k.nNew + 1, counts := Bump(k.counts, pl.network(k.m[n].addr), 1, 0))
  }

  lemma EnterNewKept(pl: Placement, k: Books, n: int)
    requires Kept(pl, k) && n in k.m && n !in k.newIds && n !in k.triedIds
    ensures Kept(pl, EnterNew(pl, k, n))
  {
    CountNew(pl, k.m, k.newIds, k.triedIds, k.nNew, k.nTried, k.counts, n);
  }

  function SetTried(m: Infos, n: int, tried: bool): Infos
    requires n in m
  {
    m[n := m[n].(fInTried := tried)]
  }

  function LeaveTried(pl: Placement, k: Books, b: nat, p: nat, n: int): Books
    requires n in k.m && b < |k.triedT| && p < |k.triedT[b]|
  {
    k.(m := SetTried(k.m, n, false), triedT := Put(k.triedT, b, p, EMPTY), triedIds := k.triedIds - {n},
       nTried := k.nTried - 1, counts := Bump(k.counts, pl.network(k.m[n].addr), 0, -1))
  }

  lemma RetagOk(pl: Placement, k: Books, m': Infos, triedIds: set<int>)
    requires Sound(pl, k) && m'.Keys == k.m.Keys
    requires forall n :: n in k.m ==> m'[n] == k.m[n].(fInTried := m'[n].fInTried)
    ensures NewTable(pl, m', k.newT) && TriedTable(pl, m', k.triedT, k.triedIds)
    ensures Pointing(m', k.byAddr, k.nIdCount) && Shuffled(m', k.order)
    ensures Counted(pl, m', k.newIds, k.triedIds, k.nNew, k.nTried, k.counts)
  {
    CountedMoves(pl, k.m, m', k.newIds, k.triedIds, k.nNew, k.nTried, k.counts);
    forall n | n in m' ensures m'[n].nRefCount == |Refs(pl, k.newT, n, m'[n].addr)| {
      assert m'[n].addr == k.m[n].addr;
    }
  }

  lemma TriedHolder(pl: Placement, m: Infos, t: Table, tried: set<int>, b: nat, p: nat)
    requires TriedTable(pl, m, t, tried) && b < TRIED_BUCKETS && p < BUCKET_SIZE
    ensures Dim(t, TRIED_BUCKETS) && (t[b][p] != EMPTY ==> t[b][p] in tried && t[b][p] in m)
  {
  }

  lemma LeaveTriedKept(pl: Placement, k: Books, b: nat, p: nat)
    requires Kept(pl, k) && b < TRIED_BUCKETS && p < BUCKET_SIZE && k.triedT[b][p] != EMPTY
    ensures var n := k.triedT[b][p];
            n in k.m && n in k.triedIds && Kept(pl, LeaveTried(pl, k, b, p, n))
  {
    KeptIff(pl, k);
    hide Index, Pointing, Shuffled, NewTable, TriedTable, Counted;
    TriedHolder(pl, k.m, k.triedT, k.triedIds, b, p);
    var n := k.triedT[b][p];
    var m' := SetTried(k.m, n, false);
    RetagOk(pl, k, m', k.triedIds);
    EvictOk(pl, m', k.triedT, k.triedIds, b, p);
    UncountTried(pl, m', k.newIds, k.triedIds, k.nNew, k.nTried, k.counts, n);
    hide Kept;
    KeptOn(pl, k, LeaveTried(pl, k, b, p, n));
  }

  function EnterTried(pl: Placement, k: Books, n: int): Books
    requires n in k.m && Dim(k.triedT, TRIED_BUCKETS)
  {
    var b := pl.TriedBucket(k.m[n].addr);
    k.(m := SetTried(k.m, n, true), triedT := Put(k.triedT, b, pl.Position(false, b, k.m[n].addr), n),
      triedIds := k.triedIds + {n}, nTried := k.nTried + 1, counts := Bump(k.counts, pl.network(k.m[n].addr), 0, 1))
  }

  lemma NotEmptyId(pl: Placement, k: Books, n: int)
    requires Sound(pl, k) && n in k.m
    ensures n != EMPTY
  {
  }

  lemma EnterTriedSound(pl: Placement, k: Books, n: int)
    requires Sound(pl, k) && n in k.m && n !in k.newIds && n !in k.triedIds && Dim(k.triedT, TRIED_BUCKETS)
    requires TriedSlot(pl, k.triedT, k.m[n].addr) == EMPTY
    ensures Sound(pl, EnterTried(pl, k, n))
  {
    NotEmptyId(pl, k, n);
    hide Pointing, Shuffled, NewTable, TriedTable, Counted;
    TriedIdsKnown(pl, k.m, k.triedT, k.triedIds);
    var m' := SetTried(k.m, n, true);
    RetagOk(pl, k, m', k.triedIds);
    InstallOk(pl, m', k.triedT, k.triedIds, n);
    CountTried(pl, m', k.newIds, k.triedIds, k.nNew, k.nTried, k.counts, n);
  }

  lemma EnterTriedKept(pl: Placement, k: Books, n: int)
    requires Kept(pl, k) && n in k.m && n !in k.newIds && n !in k.triedIds
    requires TriedSlot(pl, k.triedT, k.m[n].addr) == EMPTY && k.m[n].lastSuccess > 0
    ensures Kept(pl, EnterTried(pl, k, n))
  {
    KeptIff(pl, k);
    EntryFacts(pl, k, n);
    EnterTriedSound(pl, k, n);
    hide Kept, Sound;
    KeptOn(pl, k, EnterTried(pl, k, n));
  }

  // ---------- between operations ----------

  /** Reference counts as they are between operations, except that those of `limbo` are zero for the moment. */
  ghost predicate BoundedBut(m: Infos, newIds: set<int>, triedIds: set<int>, limbo: set<int>) {
    forall n :: n in m ==>
      if n in limbo then m[n].nRefCount == 0
      else if n in triedIds then m[n].nRefCount == 0
      else n in newIds && 1 <= m[n].nRefCount <= NEW_BUCKETS_PER_ADDRESS
  }

  /** What holds in the middle of an operation that has the entries of `limbo` in hand. */
  ghost predicate SettledBut(pl: Placement, k: Books, limbo: set<int>) {
    && Kept(pl, k)
    && BoundedBut(k.m, k.newIds, k.triedIds, limbo)
    && 0 <= k.nIdCount
  }

  /** What holds between operations: every entry is in one of the two sets and referenced as that set demands. */
  ghost predicate Settled(pl: Placement, k: Books) {
    SettledBut(pl, k, {})
  }

  lemma PlaceFacts(pl: Placement, k: Books, n: int)
    requires Kept(pl, k) && n in k.m
    ensures 0 <= k.m[n].nRandomPos < |k.order| && k.order[k.m[n].nRandomPos] == n
  {
  }

  lemma SettledOrder(pl: Placement, k: Books, i: int)
    requires Settled(pl, k) && 0 <= i < |k.order|
    ensures k.order[i] in k.m && k.order[i] !in k.order[..i]
  {
  }

  lemma PutSame(t: Table, b: nat, p: nat)
    requires b < |t| && p < |t[b]|
    ensures Put(t, b, p, t[b][p]) == t
  {
    assert t[b][p := t[b][p]] == t[b];
  }

  lemma DimFacts(pl: Placement, k: Books)
    requires Kept(pl, k)
    ensures Dim(k.newT, NEW_BUCKETS) && Dim(k.triedT, TRIED_BUCKETS)
    ensures k.newIds <= k.m.Keys && k.triedIds <= k.m.Keys && k.newIds !! k.triedIds
  {
  }

  /** The facts of sound books. */
  lemma SoundFacts(pl: Placement, k: Books)
    requires Sound(pl, k)
    ensures Dim(k.newT, NEW_BUCKETS) && Dim(k.triedT, TRIED_BUCKETS) && EMPTY !in k.m
    ensures k.newIds <= k.m.Keys && k.triedIds <= k.m.Keys && k.newIds !! k.triedIds
    ensures k.nIdCount !in k.m && k.nIdCount !in k.newIds && k.nIdCount !in k.triedIds
  {
  }

  lemma SoundEntry(pl: Placement, k: Books, n: int)
    requires Sound(pl, k) && n in k.m
    ensures (k.m[n].fInTried <==> n in k.triedIds) && 0 <= n < k.nIdCount
    ensures 0 <= k.m[n].nRandomPos < |k.order| && k.order[k.m[n].nRandomPos] == n
    ensures Dim(k.newT, NEW_BUCKETS) && k.m[n].nRefCount == |Refs(pl, k.newT, n, k.m[n].addr)|
    ensures Dim(k.triedT, TRIED_BUCKETS) && (n in k.triedIds ==> TriedSlot(pl, k.triedT, k.m[n].addr) == n)
  {
  }

  lemma NextIdUnused(pl: Placement, k: Books)
    requires Kept(pl, k)
    ensures k.nIdCount !in k.m && k.nIdCount !in k.newIds && k.nIdCount !in k.triedIds
  {
  }

  lemma AppendSettled(pl: Placement, k: Books, info: AddrInfo)
    requires Settled(pl, k) && info.addr !in k.byAddr
    requires info.nRefCount == 0 && !info.fInTried && info.lastTry >= 0 && info.lastSuccess >= 0
    ensures SettledBut(pl, Append(pl, k, info), {k.nIdCount})
    ensures k.nIdCount !in k.m && k.nIdCount !in k.newIds && k.nIdCount !in k.triedIds
  {
    hide Kept;
    AppendKept(pl, k, info);
    NextIdUnused(pl, k);
  }

  lemma EntryFacts(pl: Placement, k: Books, n: int)
    requires Kept(pl, k) && n in k.m
    ensures (k.m[n].fInTried <==> n in k.triedIds) && k.m[n].lastTry >= 0 && k.m[n].lastSuccess >= 0
    ensures n in k.triedIds ==> k.m[n].lastSuccess > 0
  {
  }

  lemma KnownFacts(pl: Placement, k: Books, n: int)
    requires Settled(pl, k) && n in k.m
    ensures k.m[n].addr in k.byAddr && k.byAddr[k.m[n].addr] == n
  {
  }

  lemma SettledEntry(pl: Placement, k: Books, n: int)
    requires Settled(pl, k) && n in k.m
    ensures (k.m[n].fInTried <==> n in k.triedIds) && k.m[n].lastTry >= 0 && k.m[n].lastSuccess >= 0
    ensures n in k.triedIds ==> k.m[n].lastSuccess > 0
    ensures n !in k.triedIds ==> n in k.newIds && k.m[n].nRefCount >= 1
    ensures 0 <= n < k.nIdCount
  {
    EntryFacts(pl, k, n);
  }

  lemma TriedSlotKnown(pl: Placement, k: Books, n: int)
    requires Settled(pl, k) && n in k.m && Dim(k.triedT, TRIED_BUCKETS)
    ensures var o := TriedSlot(pl, k.triedT, k.m[n].addr); o != EMPTY ==> o in k.triedIds && o in k.m
  {
    TriedSlotFacts(pl, k, n);
  }

  lemma SettledFacts(pl: Placement, k: Books, limbo: set<int>)
    requires SettledBut(pl, k, limbo)
    ensures Dim(k.newT, NEW_BUCKETS) && Dim(k.triedT, TRIED_BUCKETS)
    ensures EMPTY !in k.m && k.newIds <= k.m.Keys && k.triedIds <= k.m.Keys && k.newIds !! k.triedIds
    ensures 0 <= k.nIdCount
  {
  }

  /** An occupied slot of the new table belongs to a referenced entry, so to a new one that is not in limbo. */
  lemma NewSlotFacts(pl: Placement, k: Books, b: nat, p: nat, limbo: set<int>)
    requires SettledBut(pl, k, limbo) && Dim(k.newT, NEW_BUCKETS) && b < NEW_BUCKETS && p < BUCKET_SIZE
    ensures var n := k.newT[b][p];
            n != EMPTY ==> n in k.m && n in k.newIds && n !in limbo && pl.Position(true, b, k.m[n].addr) == p
  {
    if k.newT[b][p] != EMPTY {
      ClearSlotOk(pl, k.m, k.newT, b, p);
    }
  }

  lemma IdFacts(pl: Placement, k: Books, n: int)
    requires Kept(pl, k) && n in k.m
    ensures 0 <= n < k.nIdCount
  {
  }

  /** The first `i` buckets, counted round from `start`, hold no reference to `n`. */
  ghost predicate Swept(pl: Placement, t: Table, start: int, i: int, n: int, a: Service)
    requires Dim(t, NEW_BUCKETS)
  {
    forall b :: 0 <= b < NEW_BUCKETS && (b - start) % NEW_BUCKETS < i ==> t[b][pl.Position(true, b, a)] != n
  }

  lemma SweepStep(pl: Placement, t: Table, t': Table, start: nat, i: nat, n: int, a: Service)
    requires Dim(t, NEW_BUCKETS) && Dim(t', NEW_BUCKETS) && start < NEW_BUCKETS && i < NEW_BUCKETS
    requires Swept(pl, t, start, i, n, a)
    requires var b := (start + i) % NEW_BUCKETS;
             && (t' == t || t' == Put(t, b, pl.Position(true, b, a), EMPTY))
             && t'[b][pl.Position(true, b, a)] != n
    ensures n != EMPTY ==> Swept(pl, t', start, i + 1, n, a)
  {
  }

  /** A sweep over all buckets leaves no reference, so the count is zero. */
  lemma SweptAll(pl: Placement, k: Books, start: int, n: int)
    requires Kept(pl, k) && n in k.m && Dim(k.newT, NEW_BUCKETS)
    requires Swept(pl, k.newT, start, NEW_BUCKETS, n, k.m[n].addr)
    ensures k.m[n].nRefCount == 0
  {
    assert Refs(pl, k.newT, n, k.m[n].addr) == {};
  }

  lemma TriedSlotFacts(pl: Placement, k: Books, n: int)
    requires Kept(pl, k) && Dim(k.triedT, TRIED_BUCKETS) && n in k.m
    ensures var o := TriedSlot(pl, k.triedT, k.m[n].addr); o != EMPTY ==> o in k.triedIds && o in k.m
    ensures n in k.triedIds ==> TriedSlot(pl, k.triedT, k.m[n].addr) == n
  {
  }

  predicate SameButPos(i: AddrInfo, j: AddrInfo) {
    j == i.(nRandomPos := j.nRandomPos)
  }

  /** The entries left are the old ones, up to their places in the random order. */
  ghost predicate Reordered(m: Infos, m': Infos, gone: set<int>) {
    m'.Keys == m.Keys - gone && forall n :: n in m' ==> SameButPos(m[n], m'[n])
  }
}
