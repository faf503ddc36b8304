/**
 The address manager's self-check, loop by loop, and the exact condition each loop
 decides. The order in which the hash table is walked is an input.
 */
module AddrCheck {
  import opened AddrTables

  /** `order` walks the table: every key once. */
  ghost predicate Walks(order: seq<int>, m: Infos) {
    && (forall i :: 0 <= i < |order| ==> order[i] in m)
    && (forall i, j :: 0 <= i < j < |order| ==> order[i] != order[j])
    && (forall n :: n in m ==> n in order)
  }

  // ---------- entries ----------

  predicate EntryPasses(info: AddrInfo, n: int, byAddr: map<Service, int>, v: seq<int>) {
    && (if info.fInTried then info.lastSuccess != 0 && info.nRefCount == 0
        else 1 <= info.nRefCount <= NEW_BUCKETS_PER_ADDRESS)
    && info.addr in byAddr && byAddr[info.addr] == n
    && 0 <= info.nRandomPos < |v| && v[info.nRandomPos] == n
    && info.lastTry >= 0 && info.lastSuccess >= 0
  }

  ghost function TriedOf(m: Infos): set<int> {
    set n | n in m && m[n].fInTried
  }

  ghost function RefsOf(m: Infos): map<int, int> {
    map n | n in m && !m[n].fInTried :: m[n].nRefCount
  }

  /** The error code for an entry, zero if it passes. */
  function EntryCode(info: AddrInfo, n: int, byAddr: map<Service, int>, v: seq<int>): (code: int)
    ensures code == 0 <==> EntryPasses(info, n, byAddr, v)
  {
    if info.fInTried && info.lastSuccess == 0 then -1
    else if info.fInTried && info.nRefCount != 0 then -2
    else if !info.fInTried && (info.nRefCount < 0 || info.nRefCount > NEW_BUCKETS_PER_ADDRESS) then -3
    else if !info.fInTried && info.nRefCount == 0 then -4
    else if info.addr !in byAddr || byAddr[info.addr] != n then -5
    else if info.nRandomPos < 0 || info.nRandomPos >= |v| || v[info.nRandomPos] != n then -14
    else if info.lastTry < 0 then -6
    else if info.lastSuccess < 0 then -8
    else 0
  }

  ghost function NewOf(m: Infos): set<int> {
    set n | n in m && !m[n].fInTried
  }

  ghost function NetsOf(pl: Placement, m: Infos): set<Network> {
    set n | n in m :: pl.network(m[n].addr)
  }

  ghost function TriedIn(m: Infos, done: set<int>): set<int> {
    set n | n in done && n in m && m[n].fInTried
  }

  ghost function RefsIn(m: Infos, done: set<int>): map<int, int> {
    map n | n in done && n in m && !m[n].fInTried :: m[n].nRefCount
  }

  ghost function NetsIn(pl: Placement, m: Infos, done: set<int>): set<Network> {
    set n | n in done && n in m :: pl.network(m[n].addr)
  }

  lemma InAdd(pl: Placement, m: Infos, done: set<int>, n: int)
    requires n in m && n !in done
    ensures TriedIn(m, done + {n}) == TriedIn(m, done) + (if m[n].fInTried then {n} else {})
    ensures n !in TriedIn(m, done) && n !in RefsIn(m, done)
    ensures RefsIn(m, done + {n}) == if m[n].fInTried then RefsIn(m, done) else RefsIn(m, done)[n := m[n].nRefCount]
    ensures NetsIn(pl, m, done + {n}) == NetsIn(pl, m, done) + {pl.network(m[n].addr)}
  {
  }

  /** What the first loop has gathered from the entries of `done`. */
  ghost predicate Gathered(
    pl: Placement, m: Infos, done: set<int>, setTried: set<int>, mapNew: map<int, int>, local: NetCounts)
  {
    && setTried == TriedIn(m, done)
    && mapNew == RefsIn(m, done)
    && Counted(pl, m, mapNew.Keys, setTried, |mapNew.Keys|, |setTried|, local)
    && local.Keys == NetsIn(pl, m, done)
  }

  lemma GatherTried(
    pl: Placement, m: Infos, done: set<int>, setTried: set<int>, mapNew: map<int, int>, local: NetCounts, n: int)
    requires Gathered(pl, m, done, setTried, mapNew, local) && n in m && n !in done && m[n].fInTried
    ensures Gathered(pl, m, done + {n}, setTried + {n}, mapNew, Bump(local, pl.network(m[n].addr), 0, 1))
  {
    hide Counted, TriedIn, RefsIn, NetsIn, Bump;
    InAdd(pl, m, done, n);
    BumpKeys(local, pl.network(m[n].addr), 0, 1);
    CountTried(pl, m, mapNew.Keys, setTried, |mapNew.Keys|, |setTried|, local, n);
    assert |setTried + {n}| == |setTried| + 1;
  }

  lemma GatherNew(
    pl: Placement, m: Infos, done: set<int>, setTried: set<int>, mapNew: map<int, int>, local: NetCounts, n: int)
    requires Gathered(pl, m, done, setTried, mapNew, local) && n in m && n !in done && !m[n].fInTried
    ensures Gathered(pl, m, done + {n}, setTried, mapNew[n := m[n].nRefCount], Bump(local, pl.network(m[n].addr), 1, 0))
  {
    hide Counted, TriedIn, RefsIn, NetsIn, Bump;
    InAdd(pl, m, done, n);
    BumpKeys(local, pl.network(m[n].addr), 1, 0);
    KeysPut(mapNew, n, m[n].nRefCount);
    CountNew(pl, m, mapNew.Keys, setTried, |mapNew.Keys|, |setTried|, local, n);
  }

  lemma KeysPut(refs: map<int, int>, n: int, v: int)
    requires n !in refs
    ensures refs[n := v].Keys == refs.Keys + {n} && |refs[n := v].Keys| == |refs.Keys| + 1
  {
    assert refs[n := v].Keys == refs.Keys + {n};
  }

  lemma BumpKeys(counts: NetCounts, net: Network, dNew: int, dTried: int)
    ensures Bump(counts, net, dNew, dTried).Keys == counts.Keys + {net}
  {
  }

  lemma GatherNone(pl: Placement, m: Infos)
    ensures Gathered(pl, m, {}, {}, map[], map[])
  {
  }

  lemma GatherAll(pl: Placement, m: Infos, setTried: set<int>, mapNew: map<int, int>, local: NetCounts)
    requires Gathered(pl, m, m.Keys, setTried, mapNew, local)
    ensures setTried == TriedOf(m) && mapNew == RefsOf(m) && local.Keys == NetsOf(pl, m)
    ensures NewOf(m) == RefsOf(m).Keys && Counted(pl, m, NewOf(m), TriedOf(m), |NewOf(m)|, |TriedOf(m)|, local)
  {
    hide Counted;
    assert TriedIn(m, m.Keys) == TriedOf(m) && RefsIn(m, m.Keys) == RefsOf(m) && NetsIn(pl, m, m.Keys) == NetsOf(pl, m);
    assert NewOf(m) == mapNew.Keys;
  }

  method CheckEntries(pl: Placement, m: Infos, byAddr: map<Service, int>, v: seq<int>, order: seq<int>)
    returns (code: int, setTried: set<int>, mapNew: map<int, int>, local: NetCounts)
    requires Walks(order, m)
    ensures code == 0 <==> forall n :: n in m ==> EntryPasses(m[n], n, byAddr, v)
    ensures code == 0 ==> Gathered(pl, m, m.Keys, setTried, mapNew, local)
  {
    hide *;
    code, setTried, mapNew, local := 0, {}, map[], map[];
    ghost var done: set<int> := {};
    GatherNone(pl, m);
    WalkDone(order, m);
    for i := 0 to |order|
      invariant done == Walked(order, i)
      invariant forall n :: n in done ==> n in m && EntryPasses(m[n], n, byAddr, v)
      invariant Gathered(pl, m, done, setTried, mapNew, local)
    {
      WalkStep(order, m, i);
      var n := order[i];
      code := EntryCode(m[n], n, byAddr, v);
      if code != 0 {
        return;
      }
      if m[n].fInTried {
        GatherTried(pl, m, done, setTried, mapNew, local, n);
        setTried := setTried + {n};
        local := Bump(local, pl.network(m[n].addr), 0, 1);
      } else {
        GatherNew(pl, m, done, setTried, mapNew, local, n);
        mapNew := mapNew[n := m[n].nRefCount];
        local := Bump(local, pl.network(m[n].addr), 1, 0);
      }
      done := done + {n};
    }
    WalkDone(order, m);
    code := 0;
  }

  ghost function Walked(order: seq<int>, i: int): set<int>
    requires 0 <= i <= |order|
  {
    set n | n in order[..i]
  }

  lemma WalkStep(order: seq<int>, m: Infos, i: int)
    requires Walks(order, m) && 0 <= i < |order|
    ensures order[i] in m && order[i] !in Walked(order, i)
    ensures Walked(order, i + 1) == Walked(order, i) + {order[i]}
  {
    assert order[..i + 1] == order[..i] + [order[i]];
  }

  lemma WalkDone(order: seq<int>, m: Infos)
    requires Walks(order, m)
    ensures Walked(order, 0) == {} && Walked(order, |order|) == m.Keys
  {
    assert order[..|order|] == order;
    forall n ensures n in Walked(order, |order|) <==> n in m.Keys {
    }
  }

  // ---------- tried table ----------

  /** An occupied slot of the tried table passes: a tried entry, in its own slot. */
  ghost predicate TriedSlotPasses(pl: Placement, m: Infos, t: Table, tried: set<int>, b: int, p: int)
    requires Dim(t, TRIED_BUCKETS) && 0 <= b < TRIED_BUCKETS && 0 <= p < BUCKET_SIZE
  {
    var n := t[b][p];
    n == EMPTY || (n in tried && n in m && pl.TriedBucket(m[n].addr) == b && pl.Position(false, b, m[n].addr) == p)
  }

  predicate Before(b1: int, p1: int, b: int, p: int) {
    b1 < b || (b1 == b && p1 < p)
  }

  /** Tried entries whose own slot has been walked and holds them. */
  ghost function TriedSeen(pl: Placement, m: Infos, t: Table, tried: set<int>, b: int, p: int): set<int>
    requires Dim(t, TRIED_BUCKETS) && tried <= m.Keys
  {
    set n | n in tried && TriedSlot(pl, t, m[n].addr) == n
            && Before(pl.TriedBucket(m[n].addr), pl.Position(false, pl.TriedBucket(m[n].addr), m[n].addr), b, p)
  }

  lemma TriedSeenStep(pl: Placement, m: Infos, t: Table, tried: set<int>, b: int, p: int)
    requires Dim(t, TRIED_BUCKETS) && tried <= m.Keys && EMPTY !in tried && 0 <= b < TRIED_BUCKETS
    requires 0 <= p < BUCKET_SIZE
    ensures TriedSlotPasses(pl, m, t, tried, b, p) ==>
              && t[b][p] !in TriedSeen(pl, m, t, tried, b, p)
              && TriedSeen(pl, m, t, tried, b, p + 1)
                 == TriedSeen(pl, m, t, tried, b, p) + if t[b][p] == EMPTY then {} else {t[b][p]}
  {
    if TriedSlotPasses(pl, m, t, tried, b, p) {
      var seen, next := TriedSeen(pl, m, t, tried, b, p), TriedSeen(pl, m, t, tried, b, p + 1);
      forall n | n in tried ensures n in next <==> n in seen || n == t[b][p] {
        var tb := pl.TriedBucket(m[n].addr);
        var tp := pl.Position(false, tb, m[n].addr);
        assert Before(tb, tp, b, p + 1) <==> Before(tb, tp, b, p) || (tb == b && tp == p);
      }
    }
  }

  method CheckTried(pl: Placement, m: Infos, t: Table, tried: set<int>) returns (code: int, left: set<int>)
    requires Dim(t, TRIED_BUCKETS) && tried <= m.Keys && EMPTY !in m
    ensures code == 0 <==>
            forall b, p :: 0 <= b < TRIED_BUCKETS && 0 <= p < BUCKET_SIZE ==> TriedSlotPasses(pl, m, t, tried, b, p)
    ensures code == 0 ==> left == tried - TriedSeen(pl, m, t, tried, TRIED_BUCKETS, 0)
  {
    code, left := 0, tried;
    assert TriedSeen(pl, m, t, tried, 0, 0) == {};
    for b := 0 to TRIED_BUCKETS
      invariant forall b1, p1 :: 0 <= b1 < b && 0 <= p1 < BUCKET_SIZE ==> TriedSlotPasses(pl, m, t, tried, b1, p1)
      invariant left == tried - TriedSeen(pl, m, t, tried, b, 0)
    {
      for p := 0 to BUCKET_SIZE
        invariant forall b1, p1 :: 0 <= b1 < b && 0 <= p1 < BUCKET_SIZE ==> TriedSlotPasses(pl, m, t, tried, b1, p1)
        invariant forall p1 :: 0 <= p1 < p ==> TriedSlotPasses(pl, m, t, tried, b, p1)
        invariant left == tried - TriedSeen(pl, m, t, tried, b, p)
      {
        TriedSeenStep(pl, m, t, tried, b, p);
        var n := t[b][p];
        if n != EMPTY {
          if n !in left {
            assert !TriedSlotPasses(pl, m, t, tried, b, p);
            return -11, left;
          }
          if n !in m || pl.TriedBucket(m[n].addr) != b {
            assert !TriedSlotPasses(pl, m, t, tried, b, p);
            return -17, left;
          }
          if pl.Position(false, b, m[n].addr) != p {
            assert !TriedSlotPasses(pl, m, t, tried, b, p);
            return -18, left;
          }
          left := left - {n};
        }
      }
      assert TriedSeen(pl, m, t, tried, b, BUCKET_SIZE) == TriedSeen(pl, m, t, tried, b + 1, 0);
    }
  }

  // ---------- new table ----------

  ghost predicate NewSlotPasses(pl: Placement, m: Infos, t: Table, refs: map<int, int>, b: int, p: int)
    requires Dim(t, NEW_BUCKETS) && 0 <= b < NEW_BUCKETS && 0 <= p < BUCKET_SIZE
  {
    var n := t[b][p];
    n == EMPTY || (n in refs && n in m && pl.Position(true, b, m[n].addr) == p)
  }

  /** The buckets walked so far that hold `n` at its position. */
  ghost function RefsSeen(pl: Placement, t: Table, n: int, a: Service, b: int, p: int): set<int>
    requires Dim(t, NEW_BUCKETS)
  {
    set b1 | 0 <= b1 < NEW_BUCKETS && t[b1][pl.Position(true, b1, a)] == n && Before(b1, pl.Position(true, b1, a), b, p)
  }

  lemma RefsSeenStep(pl: Placement, t: Table, n: int, a: Service, b: int, p: int)
    requires Dim(t, NEW_BUCKETS) && 0 <= b < NEW_BUCKETS && 0 <= p < BUCKET_SIZE
    ensures var hit := t[b][p] == n && pl.Position(true, b, a) == p;
            && RefsSeen(pl, t, n, a, b, p + 1) == RefsSeen(pl, t, n, a, b, p) + (if hit then {b} else {})
            && |RefsSeen(pl, t, n, a, b, p + 1)| == |RefsSeen(pl, t, n, a, b, p)| + (if hit then 1 else 0)
  {
  }

  lemma RefsSeenTurn(pl: Placement, t: Table, n: int, a: Service, b: int)
    requires Dim(t, NEW_BUCKETS)
    ensures RefsSeen(pl, t, n, a, b, BUCKET_SIZE) == RefsSeen(pl, t, n, a, b + 1, 0)
    ensures RefsSeen(pl, t, n, a, 0, 0) == {}
    ensures RefsSeen(pl, t, n, a, NEW_BUCKETS, 0) == Refs(pl, t, n, a)
    ensures RefsSeen(pl, t, n, a, b, 0) <= Refs(pl, t, n, a)
  {
  }

  lemma RefsSeenBound(pl: Placement, t: Table, n: int, a: Service, b: int, p: int)
    requires Dim(t, NEW_BUCKETS)
    ensures |RefsSeen(pl, t, n, a, b, p)| <= |Refs(pl, t, n, a)|
  {
    CardSubset(RefsSeen(pl, t, n, a, b, p), Refs(pl, t, n, a));
  }

  /** What is left of the reference counts once the slots before (b, p) have been walked. */
  ghost predicate CountsLeft(
    pl: Placement, m: Infos, t: Table, refs: map<int, int>, left: map<int, int>, b: int, p: int)
    requires Dim(t, NEW_BUCKETS) && refs.Keys <= m.Keys
  {
    && left.Keys <= refs.Keys
    && forall n :: n in refs ==>
         var rest := refs[n] - |RefsSeen(pl, t, n, m[n].addr, b, p)|;
         rest >= 0 && (n in left <==> rest > 0) && (n in left ==> left[n] == rest)
  }

  lemma CountsLeftStep(
    pl: Placement, m: Infos, t: Table, refs: map<int, int>, left: map<int, int>, b: int, p: int, left': map<int, int>)
    requires Dim(t, NEW_BUCKETS) && refs.Keys <= m.Keys && 0 <= b < NEW_BUCKETS && 0 <= p < BUCKET_SIZE
    requires CountsLeft(pl, m, t, refs, left, b, p) && NewSlotPasses(pl, m, t, refs, b, p) && EMPTY !in refs
    requires var n := t[b][p];
             if n == EMPTY then left' == left
             else n in left && left' == if left[n] == 1 then left - {n} else left[n := left[n] - 1]
    ensures CountsLeft(pl, m, t, refs, left', b, p + 1)
  {
    forall n | n in refs
      ensures var rest := refs[n] - |RefsSeen(pl, t, n, m[n].addr, b, p + 1)|;
              rest >= 0 && (n in left' <==> rest > 0) && (n in left' ==> left'[n] == rest)
    {
      RefsSeenStep(pl, t, n, m[n].addr, b, p);
    }
  }

  lemma CountsLeftTurn(pl: Placement, m: Infos, t: Table, refs: map<int, int>, left: map<int, int>, b: int)
    requires Dim(t, NEW_BUCKETS) && refs.Keys <= m.Keys && CountsLeft(pl, m, t, refs, left, b, BUCKET_SIZE)
    ensures CountsLeft(pl, m, t, refs, left, b + 1, 0)
  {
    forall n | n in refs
      ensures var rest := refs[n] - |RefsSeen(pl, t, n, m[n].addr, b + 1, 0)|;
              rest >= 0 && (n in left <==> rest > 0) && (n in left ==> left[n] == rest)
    {
      RefsSeenTurn(pl, t, n, m[n].addr, b);
    }
  }

  /** A slot whose entry has used up its count, or was never new, breaks the table. */
  lemma Overdrawn(pl: Placement, m: Infos, t: Table, refs: map<int, int>, left: map<int, int>, b: int, p: int)
    requires Dim(t, NEW_BUCKETS) && refs.Keys <= m.Keys && 0 <= b < NEW_BUCKETS && 0 <= p < BUCKET_SIZE
    requires CountsLeft(pl, m, t, refs, left, b, p) && t[b][p] != EMPTY && t[b][p] !in left
    ensures !NewSlotPasses(pl, m, t, refs, b, p) ||
            (t[b][p] in refs && |Refs(pl, t, t[b][p], m[t[b][p]].addr)| > refs[t[b][p]])
  {
    var n := t[b][p];
    if NewSlotPasses(pl, m, t, refs, b, p) {
      RefsSeenStep(pl, t, n, m[n].addr, b, p);
      RefsSeenBound(pl, t, n, m[n].addr, b, p + 1);
    }
  }

  /** What the walk over the new table decides: every slot right, no count overdrawn. */
  ghost predicate NewTablePasses(pl: Placement, m: Infos, t: Table, refs: map<int, int>)
    requires Dim(t, NEW_BUCKETS) && refs.Keys <= m.Keys
  {
    && (forall b, p :: 0 <= b < NEW_BUCKETS && 0 <= p < BUCKET_SIZE ==> NewSlotPasses(pl, m, t, refs, b, p))
    && (forall n :: n in refs ==> |Refs(pl, t, n, m[n].addr)| <= refs[n])
  }

  method CheckNew(pl: Placement, m: Infos, t: Table, refs: map<int, int>) returns (code: int, left: map<int, int>)
    requires Dim(t, NEW_BUCKETS) && refs.Keys <= m.Keys && EMPTY !in m
    requires forall n :: n in refs ==> refs[n] >= 1
    ensures code == 0 <==> NewTablePasses(pl, m, t, refs)
    ensures code == 0 ==> CountsLeft(pl, m, t, refs, left, NEW_BUCKETS, 0)
  {
    hide CountsLeft, Refs;
    code, left := 0, refs;
    CountsLeftInit(pl, m, t, refs);
    for b := 0 to NEW_BUCKETS
      invariant forall b1, p1 :: 0 <= b1 < b && 0 <= p1 < BUCKET_SIZE ==> NewSlotPasses(pl, m, t, refs, b1, p1)
      invariant CountsLeft(pl, m, t, refs, left, b, 0)
    {
      for p := 0 to BUCKET_SIZE
        invariant forall b1, p1 :: 0 <= b1 < b && 0 <= p1 < BUCKET_SIZE ==> NewSlotPasses(pl, m, t, refs, b1, p1)
        invariant forall p1 :: 0 <= p1 < p ==> NewSlotPasses(pl, m, t, refs, b, p1)
        invariant CountsLeft(pl, m, t, refs, left, b, p)
      {
        ghost var was := left;
        var n := t[b][p];
        if n != EMPTY {
          if n !in left {
            Overdrawn(pl, m, t, refs, left, b, p);
            return -12, left;
          }
          if n !in m || pl.Position(true, b, m[n].addr) != p {
            assert !NewSlotPasses(pl, m, t, refs, b, p);
            return -19, left;
          }
          left := if left[n] == 1 then left - {n} else left[n := left[n] - 1];
        }
        CountsLeftKeys(pl, m, t, refs, was, b, p);
        CountsLeftStep(pl, m, t, refs, was, b, p, left);
      }
      CountsLeftTurn(pl, m, t, refs, left, b);
    }
    CountsLeftEnd(pl, m, t, refs, left);
  }

  lemma CountsLeftKeys(pl: Placement, m: Infos, t: Table, refs: map<int, int>, left: map<int, int>, b: int, p: int)
    requires Dim(t, NEW_BUCKETS) && refs.Keys <= m.Keys && CountsLeft(pl, m, t, refs, left, b, p)
    ensures left.Keys <= refs.Keys
  {
  }

  lemma CountsLeftInit(pl: Placement, m: Infos, t: Table, refs: map<int, int>)
    requires Dim(t, NEW_BUCKETS) && refs.Keys <= m.Keys
    requires forall n :: n in refs ==> refs[n] >= 1
    ensures CountsLeft(pl, m, t, refs, refs, 0, 0)
  {
    forall n | n in refs ensures |RefsSeen(pl, t, n, m[n].addr, 0, 0)| == 0 {
      RefsSeenTurn(pl, t, n, m[n].addr, 0);
    }
  }

  lemma CountsLeftEnd(pl: Placement, m: Infos, t: Table, refs: map<int, int>, left: map<int, int>)
    requires Dim(t, NEW_BUCKETS) && refs.Keys <= m.Keys
    requires CountsLeft(pl, m, t, refs, left, NEW_BUCKETS, 0)
    ensures forall n :: n in refs ==>
      |Refs(pl, t, n, m[n].addr)| <= refs[n] && (n !in left <==> |Refs(pl, t, n, m[n].addr)| == refs[n])
  {
    forall n | n in refs ensures RefsSeen(pl, t, n, m[n].addr, NEW_BUCKETS, 0) == Refs(pl, t, n, m[n].addr) {
      RefsSeenTurn(pl, t, n, m[n].addr, 0);
    }
  }

  // ---------- the whole check ----------

  ghost predicate EntriesPass(m: Infos, byAddr: map<Service, int>, v: seq<int>) {
    forall n :: n in m ==> EntryPasses(m[n], n, byAddr, v)
  }

  /** The tried table holds exactly the entries marked as tried, each in its own slot. */
  ghost predicate TriedTablePasses(pl: Placement, m: Infos, t: Table)
    requires Dim(t, TRIED_BUCKETS)
  {
    && (forall b, p :: 0 <= b < TRIED_BUCKETS && 0 <= p < BUCKET_SIZE ==> TriedSlotPasses(pl, m, t, TriedOf(m), b, p))
    && (forall n :: n in TriedOf(m) ==> TriedSlot(pl, t, m[n].addr) == n)
  }

  /** The new table holds exactly the other entries, each as often as its reference count says. */
  ghost predicate NewTableExact(pl: Placement, m: Infos, t: Table)
    requires Dim(t, NEW_BUCKETS)
  {
    && NewTablePasses(pl, m, t, RefsOf(m))
    && (forall n :: n in RefsOf(m) ==> |Refs(pl, t, n, m[n].addr)| == m[n].nRefCount)
  }

  ghost predicate NetsPass(pl: Placement, m: Infos, counts: NetCounts) {
    && |counts| >= |NetsOf(pl, m)|
    && (forall net :: net in counts ==>
          counts[net] == NewTried(|OnNet(pl, m, NewOf(m), net)|, |OnNet(pl, m, TriedOf(m), net)|))
  }

  /** The conditions the self-check is made of. */
  ghost predicate Passes(pl: Placement, nKey: nat, m: Infos, byAddr: map<Service, int>, v: seq<int>,
    newT: Table, triedT: Table, nNew: int, nTried: int, counts: NetCounts)
    requires Dim(newT, NEW_BUCKETS) && Dim(triedT, TRIED_BUCKETS)
  {
    && |v| == nTried + nNew
    && EntriesPass(m, byAddr, v)
    && |TriedOf(m)| == nTried && |NewOf(m)| == nNew
    && TriedTablePasses(pl, m, triedT)
    && NewTableExact(pl, m, newT)
    && nKey != 0
    && NetsPass(pl, m, counts)
  }

  /** The self-check returns zero exactly when all its conditions hold. */
  method CheckAddrman(pl: Placement, nKey: nat, m: Infos, byAddr: map<Service, int>, v: seq<int>,
    newT: Table, triedT: Table, nNew: int, nTried: int, counts: NetCounts, order: seq<int>) returns (code: int)
    requires Dim(newT, NEW_BUCKETS) && Dim(triedT, TRIED_BUCKETS) && Walks(order, m) && EMPTY !in m
    ensures code == 0 <==> Passes(pl, nKey, m, byAddr, v, newT, triedT, nNew, nTried, counts)
  {
    hide EntryPasses, TriedTablePasses, NewTableExact, NetsPass, Gathered, Counted, NewOf, TriedOf, RefsOf, Dim, Walks;
    if |v| != nTried + nNew {
      return -7;
    }
    var setTried, mapNew, local;
    code, setTried, mapNew, local := CheckEntries(pl, m, byAddr, v, order);
    if code != 0 {
      return;
    }
    GatherAll(pl, m, setTried, mapNew, local);
    if |setTried| != nTried {
      return -9;
    }
    if |mapNew.Keys| != nNew {
      return -10;
    }
    EntriesPositive(m, byAddr, v);
    code := CheckTables(pl, m, newT, triedT, setTried, mapNew);
    if code != 0 {
      return;
    }
    if nKey == 0 {
      return -16;
    }
    code := CheckNets(pl, m, counts, local);
  }

  lemma EntriesPositive(m: Infos, byAddr: map<Service, int>, v: seq<int>)
    requires EntriesPass(m, byAddr, v)
    ensures forall n :: n in RefsOf(m) ==> RefsOf(m)[n] >= 1
    ensures TriedOf(m) <= m.Keys && RefsOf(m).Keys <= m.Keys
  {
  }

  method CheckTables(
    pl: Placement, m: Infos, newT: Table, triedT: Table, setTried: set<int>, mapNew: map<int, int>) returns (code: int)
    requires Dim(newT, NEW_BUCKETS) && Dim(triedT, TRIED_BUCKETS) && EMPTY !in m
    requires setTried == TriedOf(m) && mapNew == RefsOf(m) && setTried <= m.Keys && mapNew.Keys <= m.Keys
    requires forall n :: n in mapNew ==> mapNew[n] >= 1
    ensures code == 0 <==> TriedTablePasses(pl, m, triedT) && NewTableExact(pl, m, newT)
  {
    hide Dim, TriedSlotPasses, NewTablePasses, CountsLeft, TriedSeen, TriedOf, RefsOf, Refs, TriedSlot;
    var left, leftNew;
    code, left := CheckTried(pl, m, triedT, setTried);
    if code != 0 {
      return;
    }
    code, leftNew := CheckNew(pl, m, newT, mapNew);
    if code != 0 {
      return;
    }
    TriedLeft(pl, m, triedT, setTried, left);
    if left != {} {
      return -13;
    }
    NewLeft(pl, m, newT, mapNew, leftNew);
    if leftNew.Keys != {} {
      return -15;
    }
  }

  method CheckNets(pl: Placement, m: Infos, counts: NetCounts, local: NetCounts) returns (code: int)
    requires local.Keys == NetsOf(pl, m)
    requires Counted(pl, m, NewOf(m), TriedOf(m), |NewOf(m)|, |TriedOf(m)|, local)
    ensures code == 0 <==> NetsPass(pl, m, counts)
  {
    LocalCounts(pl, m, local);
    hide Counted, NewOf, TriedOf, NetsOf, OnNet;
    if |counts.Keys| < |local.Keys| {
      return -20;
    }
    if !forall net | net in counts.Keys :: counts[net] == (if net in local then local[net] else NewTried(0, 0)) {
      return -21;
    }
    code := 0;
  }

  lemma TriedLeft(pl: Placement, m: Infos, t: Table, tried: set<int>, left: set<int>)
    requires Dim(t, TRIED_BUCKETS) && tried <= m.Keys
    requires left == tried - TriedSeen(pl, m, t, tried, TRIED_BUCKETS, 0)
    ensures left == {} <==> forall n :: n in tried ==> TriedSlot(pl, t, m[n].addr) == n
  {
    forall n | n in tried ensures n in left <==> TriedSlot(pl, t, m[n].addr) != n {
    }
  }

  lemma NewLeft(pl: Placement, m: Infos, t: Table, refs: map<int, int>, left: map<int, int>)
    requires Dim(t, NEW_BUCKETS) && refs.Keys <= m.Keys && refs == RefsOf(m)
    requires CountsLeft(pl, m, t, refs, left, NEW_BUCKETS, 0)
    ensures left.Keys == {} <==> forall n :: n in refs ==> |Refs(pl, t, n, m[n].addr)| == m[n].nRefCount
  {
    CountsLeftEnd(pl, m, t, refs, left);
  }

  lemma LocalCounts(pl: Placement, m: Infos, local: NetCounts)
    requires Counted(pl, m, NewOf(m), TriedOf(m), |NewOf(m)|, |TriedOf(m)|, local)
    ensures forall net :: (if net in local then local[net] else NewTried(0, 0))
                       == NewTried(|OnNet(pl, m, NewOf(m), net)|, |OnNet(pl, m, TriedOf(m), net)|)
  {
    forall net ensures net !in local ==> OnNet(pl, m, NewOf(m), net) == {} && OnNet(pl, m, TriedOf(m), net) == {} {
      AbsentNet(pl, m, NewOf(m), TriedOf(m), |NewOf(m)|, |TriedOf(m)|, local, net);
    }
  }

  /** Settled books pass every condition of the self-check. */
  lemma SettledPasses(pl: Placement, nKey: nat, k: Books)
    requires Settled(pl, k) && nKey != 0
    ensures Dim(k.newT, NEW_BUCKETS) && Dim(k.triedT, TRIED_BUCKETS) && EMPTY !in k.m
    ensures Passes(pl, nKey, k.m, k.byAddr, k.order, k.newT, k.triedT, k.nNew, k.nTried, k.counts)
  {
    SettledSets(pl, k);
    SettledEntries(pl, k);
    SettledSizes(pl, k);
    SettledTables(pl, k);
  }

  lemma SettledSets(pl: Placement, k: Books)
    requires Settled(pl, k)
    ensures NewOf(k.m) == k.newIds && TriedOf(k.m) == k.triedIds && RefsOf(k.m).Keys == k.newIds
  {
    SettledFacts(pl, k, {});
    forall n | n in k.m ensures (n in k.triedIds <==> k.m[n].fInTried) && (n in k.newIds <==> !k.m[n].fInTried) {
      SettledEntry(pl, k, n);
    }
  }

  lemma SettledEntries(pl: Placement, k: Books)
    requires Settled(pl, k)
    ensures forall n :: n in k.m ==> EntryPasses(k.m[n], n, k.byAddr, k.order)
  {
    forall n | n in k.m ensures EntryPasses(k.m[n], n, k.byAddr, k.order) {
      SettledEntry(pl, k, n);
      KnownFacts(pl, k, n);
      PlaceFacts(pl, k, n);
    }
  }

  lemma SettledSizes(pl: Placement, k: Books)
    requires Settled(pl, k)
    ensures |k.order| == k.nTried + k.nNew
    ensures |k.newIds| == k.nNew && |k.triedIds| == k.nTried
    ensures |k.counts| >= |NetsOf(pl, k.m)|
  {
    ShuffledSize(k.m, k.order);
    SettledSets(pl, k);
    SettledFacts(pl, k, {});
    assert k.m.Keys == k.newIds + k.triedIds;
    forall net | net in NetsOf(pl, k.m) ensures net in k.counts.Keys {
    }
    NetSubset(NetsOf(pl, k.m), k.counts.Keys);
  }

  lemma NetSubset(a: set<Network>, b: set<Network>)
    requires a <= b
    ensures |a| <= |b|
  {
    assert b == a + (b - a);
  }

  lemma SettledTables(pl: Placement, k: Books)
    requires Settled(pl, k)
    ensures Dim(k.newT, NEW_BUCKETS) && Dim(k.triedT, TRIED_BUCKETS) && EMPTY !in k.m
    ensures forall b, p :: 0 <= b < TRIED_BUCKETS && 0 <= p < BUCKET_SIZE ==>
      TriedSlotPasses(pl, k.m, k.triedT, TriedOf(k.m), b, p)
    ensures NewTablePasses(pl, k.m, k.newT, RefsOf(k.m))
    ensures forall n :: n in TriedOf(k.m) ==> TriedSlot(pl, k.triedT, k.m[n].addr) == n
    ensures forall n :: n in RefsOf(k.m) ==> |Refs(pl, k.newT, n, k.m[n].addr)| == k.m[n].nRefCount
  {
    SettledSets(pl, k);
    SettledFacts(pl, k, {});
    forall b: int, p: int | 0 <= b < NEW_BUCKETS && 0 <= p < BUCKET_SIZE
      ensures NewSlotPasses(pl, k.m, k.newT, RefsOf(k.m), b, p)
    {
      NewSlotFacts(pl, k, b, p, {});
    }
  }
}
