/**
 What each operation of the address manager does to the entries and the two tables,
 stated on plain values. Entries are compared up to their places in the random order,
 which deletions reshuffle.
 */
module AddrEffects {
  import opened AddrTables

  const HOUR := 3600
  const ADDRMAN_HORIZON := 30 * 24 * HOUR
  const ADDRMAN_RETRIES := 3
  const ADDRMAN_MAX_FAILURES := 10
  const ADDRMAN_MIN_FAIL := 7 * 24 * HOUR
  const ADDRMAN_REPLACEMENT := 4 * HOUR
  const ADDRMAN_TEST_WINDOW := 40 * 60

  function Max(a: int, b: int): int { if a < b then b else a }

  /**
   Whether the statistics of an entry are bad enough that it can just be replaced. They are not
   within a minute of the last try, nor while it was heard of in the last thirty days and has not
   failed three times without, or ten times and a week after, a success.
   */
  predicate IsTerrible(info: AddrInfo, now: int): (r: bool)
    ensures now <= info.lastTry + 60 ==> !r
    ensures now > info.lastTry + 60 ==>
      (!r <==> && now - 2592000 <= info.nTime <= now + 600
               && (info.lastSuccess != 0 || info.nAttempts <= 2)
               && (info.lastSuccess + 604800 >= now || info.nAttempts <= 9))
  {
    now - info.lastTry > 60 &&
    (|| info.nTime > now + 600
     || now - info.nTime > ADDRMAN_HORIZON
     || (info.lastSuccess == 0 && info.nAttempts >= ADDRMAN_RETRIES)
     || (now - info.lastSuccess > ADDRMAN_MIN_FAIL && info.nAttempts >= ADDRMAN_MAX_FAILURES))
  }

  /** The same entries, up to their places in the random order. */
  ghost predicate SameEntries(m: Infos, m': Infos) {
    m'.Keys == m.Keys && forall n :: n in m ==> SameButPos(m[n], m'[n])
  }

  // ---------- giving up references ----------

  /** One reference to `d` is given up; the entry is forgotten with its last one. */
  function Released(m: Infos, d: int): Infos {
    if d !in m then m
    else if m[d].nRefCount == 1 then m - {d}
    else SetRefs(m, d, m[d].nRefCount - 1)
  }

  /** The table without an entry. */
  function Erase(t: Table, n: int): Table {
    seq(|t|, b requires 0 <= b < |t| => EraseRow(t[b], n))
  }

  function EraseRow(row: seq<int>, n: int): seq<int> {
    seq(|row|, p requires 0 <= p < |row| => if row[p] == n then EMPTY else row[p])
  }

  /** Slot by slot the same, except that some slots of `n` may have been emptied. */
  ghost predicate PartErased(t: Table, t': Table, n: int) {
    && Dim(t, NEW_BUCKETS) && Dim(t', NEW_BUCKETS)
    && forall b, p :: 0 <= b < NEW_BUCKETS && 0 <= p < BUCKET_SIZE ==>
         t'[b][p] == t[b][p] || (t[b][p] == n && t'[b][p] == EMPTY)
  }

  lemma PartErasedPut(t: Table, t': Table, n: int, b: nat, p: nat)
    requires PartErased(t, t', n) && b < NEW_BUCKETS && p < BUCKET_SIZE && t'[b][p] == n != EMPTY
    ensures PartErased(t, Put(t', b, p, EMPTY), n)
  {
  }

  /** Once no reference is left, every slot of the entry has been emptied. */
  lemma ErasedAll(pl: Placement, m: Infos, t: Table, t': Table, n: int)
    requires PartErased(t, t', n) && NewTable(pl, m, t') && n in m && m[n].nRefCount == 0
    ensures t' == Erase(t, n)
  {
    forall b | 0 <= b < NEW_BUCKETS ensures t'[b] == EraseRow(t[b], n) {
      forall p | 0 <= p < BUCKET_SIZE ensures t'[b][p] == EraseRow(t[b], n)[p] {
        UnreferencedNowhere(pl, m, t', n, b, p);
      }
    }
  }

  lemma ErasedFrom(pl: Placement, k: Books, t: Table, n: int)
    requires PartErased(t, k.newT, n) && Kept(pl, k) && n in k.m && k.m[n].nRefCount == 0
    ensures k.newT == Erase(t, n)
  {
    ErasedAll(pl, k.m, t, k.newT, n);
  }

  // ---------- from new to tried ----------

  /** The slot of the new table an entry goes back to when it is evicted from the tried table. */
  function HomeBucket(pl: Placement, info: AddrInfo): nat { pl.NewBucket(info.addr, info.source) }

  function HomePosition(pl: Placement, info: AddrInfo): nat { pl.Position(true, HomeBucket(pl, info), info.addr) }

  /** Entry `e` is back in the new table with one reference, in the slot of `d`. */
  ghost predicate Evicted(m: Infos, e: int, d: int, m': Infos)
    requires e in m
  {
    SameEntries(Released(m[e := m[e].(fInTried := false, nRefCount := 1)], d), m')
  }

  lemma EvictSteps(m: Infos, e: int, d: int, m1: Infos, m2: Infos)
    requires e in m && d != e && SameEntries(Released(SetTried(m, e, false), d), m1) && e in m1
    requires m2 == SetRefs(m1, e, 1)
    ensures Evicted(m, e, d, m2)
  {
    var r, goal := Released(SetTried(m, e, false), d), Released(m[e := m[e].(fInTried := false, nRefCount := 1)], d);
    assert goal == r[e := r[e].(nRefCount := 1)];
  }

  lemma PutTwice(t: Table, b: nat, p: nat, v: int, w: int)
    requires b < |t| && p < |t[b]|
    ensures Put(Put(t, b, p, v), b, p, w) == Put(t, b, p, w)
  {
    assert t[b][p := v][p := w] == t[b][p := w];
  }

  /** The entries after `n` took the tried slot of `e`, and `e` the new slot of `d`. */
  function PromotedInfos(m: Infos, n: int, e: int, d: int): Infos
    requires n in m
  {
    var m1 := m[n := m[n].(nRefCount := 0, fInTried := true)];
    if e !in m then m1 else Released(m1[e := m1[e].(fInTried := false, nRefCount := 1)], d)
  }

  /**
   Entry `n` leaves every slot it had in the new table and takes its own tried slot. An
   entry that held that slot goes back to its home slot in the new table, whose holder
   loses a reference.
   */
  ghost predicate Promoted(pl: Placement, k: Books, k': Books, n: int)
    requires n in k.m && Dim(k.newT, NEW_BUCKETS) && Dim(k.triedT, TRIED_BUCKETS)
  {
    var b := pl.TriedBucket(k.m[n].addr);
    var p := pl.Position(false, b, k.m[n].addr);
    var e, rest := k.triedT[b][p], Erase(k.newT, n);
    && k'.triedT == Put(k.triedT, b, p, n)
    && k'.triedIds == k.triedIds - {e} + {n}
    && (e !in k.m ==> k'.newT == rest && SameEntries(PromotedInfos(k.m, n, e, EMPTY), k'.m))
    && (e in k.m ==>
          var eb, ep := HomeBucket(pl, k.m[e]), HomePosition(pl, k.m[e]);
          && k'.newT == Put(rest, eb, ep, e)
          && SameEntries(PromotedInfos(k.m, n, e, rest[eb][ep]), k'.m))
  }

  /** The tried slot of `n` is free: an entry that held it went back to its home slot in the new table. */
  ghost predicate RoomMade(pl: Placement, k: Books, k': Books, n: int)
    requires n in k.m && Dim(k.newT, NEW_BUCKETS) && Dim(k.triedT, TRIED_BUCKETS)
  {
    var b := pl.TriedBucket(k.m[n].addr);
    var p := pl.Position(false, b, k.m[n].addr);
    var e := k.triedT[b][p];
    && k'.triedT == Put(k.triedT, b, p, EMPTY)
    && k'.triedIds == k.triedIds - {e}
    && (e !in k.m ==> k'.newT == k.newT && k'.m == k.m)
    && (e in k.m ==>
          var eb, ep := HomeBucket(pl, k.m[e]), HomePosition(pl, k.m[e]);
          && e != n && k.newT[eb][ep] != n && k'.newT == Put(k.newT, eb, ep, e)
          && Evicted(k.m, e, k.newT[eb][ep], k'.m))
  }

  lemma RoomThere(pl: Placement, k: Books, n: int)
    requires n in k.m && Dim(k.newT, NEW_BUCKETS) && Dim(k.triedT, TRIED_BUCKETS) && EMPTY !in k.m
    requires k.triedIds <= k.m.Keys
    requires TriedSlot(pl, k.triedT, k.m[n].addr) == EMPTY
    ensures RoomMade(pl, k, k, n)
  {
    var b := pl.TriedBucket(k.m[n].addr);
    PutSame(k.triedT, b, pl.Position(false, b, k.m[n].addr));
  }

  lemma RoomFacts(pl: Placement, k: Books, k': Books, n: int)
    requires n in k.m && Dim(k.newT, NEW_BUCKETS) && Dim(k.triedT, TRIED_BUCKETS) && RoomMade(pl, k, k', n)
    ensures n in k'.m && SameButPos(k.m[n], k'.m[n]) && Dim(k'.triedT, TRIED_BUCKETS)
    ensures TriedSlot(pl, k'.triedT, k.m[n].addr) == EMPTY
  {
  }

  /** An entry that left the new table, found room and took its slot was promoted. */
  lemma PromoteSteps(pl: Placement, k: Books, k1: Books, k2: Books, k': Books, n: int)
    requires n in k.m && Dim(k.newT, NEW_BUCKETS) && Dim(k.triedT, TRIED_BUCKETS)
    requires k1.m == SetRefs(k.m, n, 0) && k1.newT == Erase(k.newT, n) && k1.triedT == k.triedT
    requires k1.triedIds == k.triedIds
    requires Dim(k1.newT, NEW_BUCKETS) && RoomMade(pl, k1, k2, n)
    requires n in k2.m && Dim(k2.triedT, TRIED_BUCKETS) && k'.newT == k2.newT && k'.triedIds == k2.triedIds + {n}
    requires var b := pl.TriedBucket(k.m[n].addr);
             k'.triedT == Put(k2.triedT, b, pl.Position(false, b, k.m[n].addr), n) && k'.m == SetTried(k2.m, n, true)
    ensures Promoted(pl, k, k', n)
  {
    var b := pl.TriedBucket(k.m[n].addr);
    var p := pl.Position(false, b, k.m[n].addr);
    var e := k.triedT[b][p];
    PutTwice(k.triedT, b, p, EMPTY, n);
    if e in k.m {
      PromoteEntries(k.m, n, e, k1.newT[HomeBucket(pl, k.m[e])][HomePosition(pl, k.m[e])], k2.m);
    }
  }

  lemma PromoteEntries(m: Infos, n: int, e: int, d: int, m1: Infos)
    requires n in m && e in m && e != n && d != n && Evicted(SetRefs(m, n, 0), e, d, m1) && n in m1
    ensures SameEntries(PromotedInfos(m, n, e, d), SetTried(m1, n, true))
  {
    var m0 := SetRefs(m, n, 0);
    var r := Released(m0[e := m0[e].(fInTried := false, nRefCount := 1)], d);
    var goal := PromotedInfos(m, n, e, d);
    assert goal == r[n := r[n].(fInTried := true)];
  }

  lemma PromotedFacts(pl: Placement, k: Books, k': Books, n: int)
    requires n in k.m && n != EMPTY && Dim(k.newT, NEW_BUCKETS) && Dim(k.triedT, TRIED_BUCKETS)
    requires Promoted(pl, k, k', n)
    ensures StillFilled(k.triedT, k'.triedT) && Fewer(k.m, k'.m) && n in k'.triedIds
    ensures TriedSlot(pl, k.triedT, k.m[n].addr) !in k.triedIds ==> k.triedIds <= k'.triedIds
  {
    hide SameEntries;
    var b := pl.TriedBucket(k.m[n].addr);
    var e, rest := k.triedT[b][pl.Position(false, b, k.m[n].addr)], Erase(k.newT, n);
    if e in k.m {
      PromotedFewer(k.m, n, e, rest[HomeBucket(pl, k.m[e])][HomePosition(pl, k.m[e])], k'.m);
    } else {
      PromotedFewer(k.m, n, e, EMPTY, k'.m);
    }
  }

  lemma PromotedFewer(m: Infos, n: int, e: int, d: int, m': Infos)
    requires n in m && SameEntries(PromotedInfos(m, n, e, d), m')
    ensures Fewer(m, m')
  {
    forall k | k in m' ensures k in m && m'[k].addr == m[k].addr {
      assert SameButPos(PromotedInfos(m, n, e, d)[k], m'[k]);
    }
  }

  /**
   Whether reaching an entry moves it to the tried table at once: it is not there yet, and nobody
   must be tested first.
   */
  ghost predicate MayMove(pl: Placement, k: Books, n: int, testBeforeEvict: bool)
    requires n in k.m && Dim(k.triedT, TRIED_BUCKETS)
  {
    !k.m[n].fInTried && !(testBeforeEvict && TriedSlot(pl, k.triedT, k.m[n].addr) != EMPTY)
  }

  /** The record of an entry that was just reached. */
  function Reached(info: AddrInfo, time: int): AddrInfo {
    info.(lastSuccess := time, lastTry := time, nAttempts := 0)
  }

  // ---------- into the new table ----------

  /** Whether `n` may take a slot held by `d`. */
  predicate MayTake(m: Infos, d: int, n: int, now: int)
    requires n in m
  {
    d == EMPTY || (d != n && d in m && (IsTerrible(m[d], now) || (m[d].nRefCount > 1 && m[n].nRefCount == 0)))
  }

  /** Entry `n` takes the slot that `source` gives it, if it may; an entry left without any slot is forgotten. */
  ghost predicate Placed(
    pl: Placement, m: Infos, t: Table, n: int, source: NetAddr, now: int, m': Infos, t': Table, taken: bool)
    requires n in m && Dim(t, NEW_BUCKETS)
  {
    var b := pl.NewBucket(m[n].addr, source);
    var p := pl.Position(true, b, m[n].addr);
    var d := t[b][p];
    && taken == MayTake(m, d, n, now)
    && t' == (if taken then Put(t, b, p, n) else t)
    && SameEntries(if taken then Released(m, d)[n := m[n].(nRefCount := m[n].nRefCount + 1)]
                   else if m[n].nRefCount == 0 then m - {n}
                   else m, m')
  }

  /** Taking a slot leaves its taker as it was, but for the reference gained. */
  lemma TakeReady(m: Infos, d: int, m1: Infos, n: int)
    requires n in m && d != n && SameEntries(Released(m, d), m1)
    ensures n in m1 && SameButPos(m[n], m1[n])
    ensures SameEntries(Released(m, d)[n := m[n].(nRefCount := m[n].nRefCount + 1)],
      SetRefs(m1, n, m1[n].nRefCount + 1))
  {
    assert Released(m, d)[n] == m[n];
  }

  lemma PlacedAges(
    pl: Placement, k: Books, c: set<int>, m: Infos, n: int, source: NetAddr, now: int, k': Books, taken: bool)
    requires Dim(k.newT, NEW_BUCKETS) && n in m && Placed(pl, m, k.newT, n, source, now, k'.m, k'.newT, taken)
    requires Pending(pl, k.m, k.triedT, c, k.nIdCount) && k'.triedT == k.triedT && k.nIdCount <= k'.nIdCount
    requires forall j :: j in k.m ==> j < k.nIdCount
    requires m.Keys == k.m.Keys + {n} && (forall j :: j in k.m ==> m[j].addr == k.m[j].addr)
    requires n in k.m || n == k.nIdCount
    ensures IdsAge(k.m, k.nIdCount, k'.m, k'.nIdCount) && Pending(pl, k'.m, k'.triedT, c, k'.nIdCount)
  {
    hide Dim, Pending, MayTake;
    PlacedKnown(pl, m, k.newT, n, source, now, k'.m, k'.newT, taken);
    assert IdsAge(k.m, k.nIdCount, k'.m, k'.nIdCount);
    SameFilled(k.triedT);
    PendingAges(pl, k.m, k.triedT, c, k.nIdCount, k'.m, k'.triedT, c, k'.nIdCount);
  }

  lemma SameFilled(t: Table)
    ensures StillFilled(t, t)
  {
  }

  lemma PlacedKnown(
    pl: Placement, m: Infos, t: Table, n: int, source: NetAddr, now: int, m': Infos, t': Table, taken: bool)
    requires n in m && Dim(t, NEW_BUCKETS) && Placed(pl, m, t, n, source, now, m', t', taken)
    ensures Fewer(m, m')
  {
    hide Dim, MayTake;
  }

  lemma PlacedOrNot(pl: Placement, m: Infos, t: Table, n: int, source: NetAddr, now: int, k': Books, taken: bool)
    requires n in m && Dim(t, NEW_BUCKETS) && Placed(pl, m, t, n, source, now, k'.m, k'.newT, taken) && Settled(pl, k')
    ensures taken ==> m[n].addr in k'.byAddr
    ensures !taken ==> k'.newT == t && k'.m.Keys == if m[n].nRefCount == 0 then m.Keys - {n} else m.Keys
  {
    hide SettledBut, MayTake, Dim;
    if taken {
      KnownFacts(pl, k', n);
    }
  }

  lemma DimAt(t: Table, buckets: nat, b: nat)
    requires Dim(t, buckets) && b < buckets
    ensures |t| == buckets && |t[b]| == BUCKET_SIZE
  {
  }

  /** The record of an address heard of for the first time. */
  function Fresh(addr: Service, nTime: int, nServices: set<nat>, source: NetAddr, pos: int): AddrInfo {
    AddrInfo(addr, source, nTime, nServices, 0, 0, 0, 0, 0, false, pos)
  }

  lemma Appended(pl: Placement, k: Books, info: AddrInfo, k': Books)
    requires Settled(pl, k) && info.addr !in k.byAddr
    requires info.nRefCount == 0 && !info.fInTried && info.lastTry >= 0 && info.lastSuccess >= 0
    requires k'.m == k.m[k.nIdCount := info.(nRandomPos := |k.order|)] && k'.byAddr == k.byAddr[info.addr := k.nIdCount]
    requires k'.nIdCount == k.nIdCount + 1 && k'.order == k.order + [k.nIdCount]
    requires k'.newT == k.newT && k'.triedT == k.triedT && k'.newIds == k.newIds + {k.nIdCount}
    requires k'.triedIds == k.triedIds
    requires k'.nNew == k.nNew + 1 && k'.nTried == k.nTried && k'.counts == Bump(k.counts, pl.network(info.addr), 1, 0)
    ensures SettledBut(pl, k', {k.nIdCount})
    ensures k.nIdCount !in k.m && k.nIdCount !in k.newIds && k.nIdCount !in k.triedIds
  {
    hide SettledBut, Bump, Settled;
    AppendSettled(pl, k, info);
    assert k' == Append(pl, k, info);
  }

  lemma MapTwice(m: Infos, n: int, i: AddrInfo, j: AddrInfo)
    ensures m[n := i][n := j] == m[n := j]
  {
  }

  /** What is already known about an address, after it was heard of again. */
  function Refreshed(info: AddrInfo, nTime: int, nServices: set<nat>, penalty: int, now: int): (r: AddrInfo)
    ensures r == info.(nTime := r.nTime, nServices := r.nServices)
    ensures info.nServices <= r.nServices && nServices <= r.nServices
    ensures forall s :: s in r.nServices ==> s in info.nServices || s in nServices
    ensures nTime - penalty <= info.nTime + 3600 ==> r.nTime == info.nTime
    ensures info.nTime + 86400 < nTime - penalty ==> r.nTime == Max(0, nTime - penalty)
    ensures info.nTime + 3600 < nTime - penalty <= info.nTime + 86400 ==>
      r.nTime == if now < nTime + 86400 then Max(0, nTime - penalty) else info.nTime
  {
    var interval := if now - nTime < 24 * HOUR then HOUR else 24 * HOUR;
    info.(nTime := if info.nTime < nTime - interval - penalty then Max(0, nTime - penalty) else info.nTime,
          nServices := info.nServices + nServices)
  }

  /** Whether a known address that was heard of again is worth one more slot. */
  predicate WorthPlacing(info: AddrInfo, nTime: int, luck: bool) {
    info.nTime < nTime && !info.fInTried && info.nRefCount != NEW_BUCKETS_PER_ADDRESS && (info.nRefCount == 0 || luck)
  }

  /** An address as it is passed on: with a time and the services its peer is said to offer. */
  datatype Heard = Heard(addr: Service, nTime: int, nServices: set<nat>)

  /** The id of an address, or the next one to be given out. */
  function IdFor(k: Books, addr: Service): int {
    if addr in k.byAddr then k.byAddr[addr] else k.nIdCount
  }

  /**
   The entries once an address was heard of, before it is given a slot: refreshed if known,
   added if not. An address that announces itself is spared the penalty.
   */
  function Noted(k: Books, heard: Heard, source: NetAddr, timePenalty: int, now: int): (m: Infos)
    ensures IdFor(k, heard.addr) in m
  {
    var penalty, n := if heard.addr.ip == source then 0 else timePenalty, IdFor(k, heard.addr);
    k.m[n := if heard.addr in k.byAddr && n in k.m then Refreshed(k.m[n], heard.nTime, heard.nServices, penalty, now)
             else Fresh(heard.addr, Max(0, heard.nTime - penalty), heard.nServices, source, |k.order|)]
  }

  /**
   What hearing of an address comes to. Nothing happens for one that is not routable; a known one
   is refreshed, and placed once more if that is worth it; an unknown one gets the next id and is
   placed.
   */
  ghost predicate Offered(
    pl: Placement, k: Books, heard: Heard, source: NetAddr, timePenalty: int, now: int, luck: bool, k': Books,
    added: bool)
  {
    if !pl.routable(heard.addr) then
      !added && k' == k
    else
      var n, m := IdFor(k, heard.addr), Noted(k, heard, source, timePenalty, now);
      && Dim(k.newT, NEW_BUCKETS) && k'.triedT == k.triedT
      && k'.nIdCount == k.nIdCount + (if heard.addr in k.byAddr then 0 else 1)
      && if heard.addr in k.byAddr && !WorthPlacing(m[n], heard.nTime, luck)
         then !added && k'.m == m && k'.newT == k.newT
         else Placed(pl, m, k.newT, n, source, now, k'.m, k'.newT, added)
  }

  /** One address of a batch: the clock, the luck, whether it got a slot, and the books before and after. */
  datatype Offer = Offer(now: int, luck: bool, added: bool, before: Books, after: Books)

  /** The books before the i-th offer. */
  function BooksAt(k: Books, log: seq<Offer>, i: nat): Books
    requires i <= |log|
  {
    if i == 0 then k else log[i - 1].after
  }

  /** Every address of a batch was offered, one after the other, and took the books from `k` to `k'`. */
  ghost predicate AllOffered(
    pl: Placement, k: Books, batch: seq<Heard>, source: NetAddr, timePenalty: int, log: seq<Offer>, k': Books)
  {
    && |log| == |batch| && k' == BooksAt(k, log, |log|)
    && forall i :: 0 <= i < |log| ==> OfferAt(pl, k, batch, source, timePenalty, log, i)
  }

  ghost predicate OfferAt(
    pl: Placement, k: Books, batch: seq<Heard>, source: NetAddr, timePenalty: int, log: seq<Offer>, i: nat)
    requires i < |log| <= |batch|
  {
    && log[i].before == BooksAt(k, log, i)
    && Offered(pl, log[i].before, batch[i], source, timePenalty, log[i].now, log[i].luck, log[i].after, log[i].added)
  }

  lemma OneMoreOffered(
    pl: Placement, k: Books, batch: seq<Heard>, source: NetAddr, timePenalty: int, log: seq<Offer>, k': Books,
    offer: Offer)
    requires |log| < |batch| && AllOffered(pl, k, batch[..|log|], source, timePenalty, log, k') && offer.before == k'
    requires Offered(pl, k', batch[|log|], source, timePenalty, offer.now, offer.luck, offer.after, offer.added)
    ensures AllOffered(pl, k, batch[..|log| + 1], source, timePenalty, log + [offer], offer.after)
  {
    hide Offered;
    var more, n := log + [offer], |log|;
    var now := batch[..n + 1];
    forall i | 0 <= i < |more|
      ensures OfferAt(pl, k, now, source, timePenalty, more, i)
    {
      if i < n {
        assert OfferAt(pl, k, batch[..n], source, timePenalty, log, i);
        assert more[i] == log[i] && BooksAt(k, more, i) == BooksAt(k, log, i);
      }
    }
  }

  // ---------- pending collisions ----------

  lemma PendingTouched(pl: Placement, m: Infos, t: Table, c: set<int>, nIdCount: int, n: int, info: AddrInfo)
    requires Pending(pl, m, t, c, nIdCount) && n in m && info.addr == m[n].addr
    ensures Pending(pl, m[n := info], t, c, nIdCount) && StillFilled(t, t)
  {
  }

  /** One more collision, against an occupied slot. */
  lemma PendingMore(pl: Placement, m: Infos, t: Table, c: set<int>, nIdCount: int, n: int)
    requires Pending(pl, m, t, c, nIdCount) && |c| < MAX_COLLISIONS
    requires n in m && 0 <= n < nIdCount && TriedSlot(pl, t, m[n].addr) != EMPTY
    ensures Pending(pl, m, t, c + {n}, nIdCount)
  {
  }

  datatype Verdict = Keep | Drop | Replace

  /**
   What becomes of a pending collision of `info` against the `holder` of its slot. A holder
   reached in the last hours, or on trial in the last minute, is never replaced.
   */
  function Judge(info: AddrInfo, holder: AddrInfo, now: int): (v: Verdict)
    ensures v.Drop? <==> now - holder.lastSuccess < ADDRMAN_REPLACEMENT
    ensures v.Replace? <==>
      && now - holder.lastSuccess >= ADDRMAN_REPLACEMENT && now - holder.lastTry > 60
      && (now - holder.lastTry < ADDRMAN_REPLACEMENT || now - info.lastSuccess > ADDRMAN_TEST_WINDOW)
    ensures v.Keep? <==>
      && now - holder.lastSuccess >= ADDRMAN_REPLACEMENT
      && (now - holder.lastTry <= 60
          || (now - holder.lastTry >= ADDRMAN_REPLACEMENT && now - info.lastSuccess <= ADDRMAN_TEST_WINDOW))
  {
    if now - holder.lastSuccess < ADDRMAN_REPLACEMENT then Drop
    else if now - holder.lastTry < ADDRMAN_REPLACEMENT then (if now - holder.lastTry > 60 then Replace else Keep)
    else if now - info.lastSuccess > ADDRMAN_TEST_WINDOW then Replace
    else Keep
  }

  /** Reaching entry `n` has moved it to the tried table, or it was there and is only marked. */
  ghost predicate Met(pl: Placement, k: Books, n: int, time: int, k': Books) {
    && n in k.m && Dim(k.newT, NEW_BUCKETS) && Dim(k.triedT, TRIED_BUCKETS)
    && var k1 := Touch(k, n, Reached(k.m[n], time));
       if k.m[n].fInTried then k' == k1 else Promoted(pl, k1, k', n)
  }

  /** What a pending collision comes to: dropped if its entry is gone, else judged against the holder of its slot. */
  ghost predicate Ruled(pl: Placement, k: Books, n: int, time: int, k': Books, erase: bool) {
    if n !in k.m || !pl.valid(k.m[n].addr) then
      erase && k' == k
    else
      && Dim(k.triedT, TRIED_BUCKETS)
      && var holder := TriedSlot(pl, k.triedT, k.m[n].addr);
         && holder in k.triedIds && holder in k.m
         && var verdict := Judge(k.m[n], k.m[holder], time);
            && erase == !verdict.Keep?
            && if verdict.Replace? then Met(pl, k, n, time, k') else k' == k
  }

  /** One ruling: the collision, the clock, whether it was struck off, and the books before and after. */
  datatype Ruling = Ruling(id: int, time: int, erased: bool, before: Books, after: Books)

  /**
   The rulings take the books from `k` to `k'`, one for each of `ids` in ascending order,
   and `left` are the collisions that none of them struck off.
   */
  ghost predicate AllRuled(pl: Placement, k: Books, ids: set<int>, log: seq<Ruling>, k': Books, left: set<int>)
    decreases |log|
  {
    if log == [] then
      ids == {} && left == {} && k' == k
    else
      var last := log[|log| - 1];
      && last.id in ids && (forall j :: j in ids ==> j <= last.id)
      && Ruled(pl, last.before, last.id, last.time, last.after, last.erased) && last.after == k'
      && (last.id in left <==> !last.erased)
      && AllRuled(pl, k, ids - {last.id}, log[..|log| - 1], last.before, left - {last.id})
  }

  /** The ids of a set below `n`. */
  ghost function BelowId(ids: set<int>, n: int): set<int> {
    set j | j in ids && j < n
  }

  lemma BelowNext(ids: set<int>, n: int)
    ensures BelowId(ids, n + 1) == if n in ids then BelowId(ids, n) + {n} else BelowId(ids, n)
  {
  }

  lemma LessThrough(m: Infos, t: Table, m1: Infos, t1: Table, m2: Infos, t2: Table)
    requires Fewer(m, m1) && Fewer(m1, m2) && StillFilled(t, t1) && StillFilled(t1, t2)
    ensures Fewer(m, m2) && StillFilled(t, t2) && m1.Keys <= m.Keys
  {
  }

  lemma BelowStruck(ids: set<int>, n: int)
    ensures BelowId(ids - {n}, n + 1) == BelowId(ids, n)
  {
  }

  lemma AllBelow(ids: set<int>, n: int)
    requires forall j :: j in ids ==> 0 <= j < n
    ensures BelowId(ids, 0) == {} && BelowId(ids, n) == ids
  {
  }

  lemma NoneRuled(pl: Placement, k: Books)
    ensures AllRuled(pl, k, {}, [], k, {})
  {
  }

  lemma RuledKnown(pl: Placement, k: Books, n: int, time: int, k': Books)
    requires Ruled(pl, k, n, time, k', false)
    ensures n in k.m
  {
  }

  lemma OneMoreRuled(pl: Placement, k: Books, ids: set<int>, log: seq<Ruling>, k1: Books, left: set<int>, r: Ruling)
    requires AllRuled(pl, k, ids, log, k1, left) && r.before == k1 && left <= ids
    requires (forall j :: j in ids ==> j < r.id) && Ruled(pl, k1, r.id, r.time, r.after, r.erased)
    ensures AllRuled(pl, k, ids + {r.id}, log + [r], r.after, if r.erased then left else left + {r.id})
  {
    hide Ruled;
    var left' := if r.erased then left else left + {r.id};
    assert ids + {r.id} - {r.id} == ids && left' - {r.id} == left;
    assert (log + [r])[..|log|] == log;
  }
}
