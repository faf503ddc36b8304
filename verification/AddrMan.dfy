/**
 The address manager: its operations change six redundant structures step by step,
 and every operation is proved to leave them consistent.
 */
module AddrMan {
  import opened Wrappers
  import opened AddrTables
  import opened AddrEffects
  import AddrCheck

  class AddrManImpl {
    const pl: Placement
    const nKey: nat
    var nIdCount: int
    var mapInfo: Infos
    var mapAddr: map<Service, int>
    var vRandom: seq<int>
    var nTried: int
    var vvTried: Table
    var nNew: int
    var vvNew: Table
    var lastGood: int
    var triedCollisions: set<int>
    var networkCounts: NetCounts
    ghost var newIds: set<int>
    ghost var triedIds: set<int>

    ghost function Now(): Books
      reads this
    {
      Books(mapInfo, mapAddr, nIdCount, vRandom, vvNew, vvTried, newIds, triedIds, nNew, nTried, networkCounts)
    }

    ghost function OnDesk(): Desk
      reads this
    {
      Desk(Now(), triedCollisions, lastGood)
    }

    /** The invariant of every public operation. */
    ghost predicate Consistent()
      reads this
    {
      Settled(pl, Now()) && Pending(pl, mapInfo, vvTried, triedCollisions, nIdCount) && nKey != 0
    }

    // ---------- internal steps ----------

    method SwapRandom(p1: int, p2: int)
      requires Sound(pl, Now())
      requires 0 <= p1 < |vRandom| && 0 <= p2 < |vRandom|
      modifies this`mapInfo, this`vRandom
      ensures Sound(pl, Now()) && (old(Kept(pl, Now())) ==> Kept(pl, Now())) && Reordered(old(mapInfo), mapInfo, {})
      ensures vRandom == old(vRandom)[p1 := old(vRandom)[p2]][p2 := old(vRandom)[p1]]
    {
      hide Kept, Sound;
      SwapSound(pl, Now(), p1, p2);
      if p1 == p2 {
        return;
      }
      var n1, n2 := vRandom[p1], vRandom[p2];
      mapInfo := mapInfo[n1 := mapInfo[n1].(nRandomPos := p2)];
      mapInfo := mapInfo[n2 := mapInfo[n2].(nRandomPos := p1)];
      vRandom := vRandom[p1 := n2][p2 := n1];
    }

    /** Forgets an entry that is in neither table. */
    method Delete(n: int)
      requires Sound(pl, Now()) && n in newIds && n in mapInfo && mapInfo[n].nRefCount == 0
      modifies this`mapInfo, this`vRandom, this`mapAddr, this`nNew, this`networkCounts, this`newIds
      ensures Sound(pl, Now()) && (old(Kept(pl, Now())) ==> Kept(pl, Now())) && Reordered(old(mapInfo), mapInfo, {n})
      ensures newIds == old(newIds) - {n}
    {
      hide Kept, Sound, Bump;
      SoundEntry(pl, Now(), n);
      SwapRandom(mapInfo[n].nRandomPos, |vRandom| - 1);
      RemoveLastSound(pl, Now(), n);
      DropLast(n);
    }

    method DropLast(n: int)
      requires |vRandom| > 0 && n in mapInfo
      modifies this`mapInfo, this`vRandom, this`mapAddr, this`nNew, this`networkCounts, this`newIds
      ensures Now() == RemoveLast(pl, old(Now()), n)
    {
      var addr := mapInfo[n].addr;
      networkCounts := Bump(networkCounts, pl.network(addr), -1, 0);
      vRandom := vRandom[..|vRandom| - 1];
      mapAddr := mapAddr - {addr};
      mapInfo := mapInfo - {n};
      nNew := nNew - 1;
      newIds := newIds - {n};
    }

    /** Empties a slot of the new table, forgetting the entry when that was its last reference. */
    method ClearNew(b: nat, p: nat, ghost limbo: set<int>)
      requires SettledBut(pl, Now(), limbo) && b < NEW_BUCKETS && p < BUCKET_SIZE
      modifies this`mapInfo, this`vRandom, this`mapAddr, this`nNew, this`networkCounts, this`newIds, this`vvNew
      ensures SettledBut(pl, Now(), limbo)
      ensures Dim(old(vvNew), NEW_BUCKETS) && vvNew == Put(old(vvNew), b, p, EMPTY)
      ensures var d := old(vvNew)[b][p];
              && (d != EMPTY ==> d in old(mapInfo) && d !in limbo)
              && newIds <= old(newIds) && old(newIds) - {d} <= newIds
              && SameEntries(Released(old(mapInfo), d), mapInfo)
    {
      hide Kept, Sound, Keyed, Timed;
      DimFacts(pl, Now());
      NewSlotFacts(pl, Now(), b, p, limbo);
      if vvNew[b][p] != EMPTY {
        var d := vvNew[b][p];
        ClearKept(pl, Now(), b, p);
        mapInfo := mapInfo[d := mapInfo[d].(nRefCount := mapInfo[d].nRefCount - 1)];
        vvNew := Put(vvNew, b, p, EMPTY);
        if mapInfo[d].nRefCount == 0 {
          KeptIff(pl, Now());
          Delete(d);
        }
      } else {
        SettledFacts(pl, Now(), limbo);
        PutSame(vvNew, b, p);
      }
    }

    /** Removes an entry from every bucket of the new table; afterwards it has no reference left. */
    method DropReferences(n: int)
      requires Settled(pl, Now()) && n in newIds && n in mapInfo
      modifies this`mapInfo, this`vvNew
      ensures SettledBut(pl, Now(), {n})
      ensures mapInfo == SetRefs(old(mapInfo), n, 0) && vvNew == Erase(old(vvNew), n)
    {
      hide Kept;
      ghost var m0 := mapInfo;
      DimFacts(pl, Now());
      IdFacts(pl, Now(), n);
      var start := pl.NewBucket(mapInfo[n].addr, mapInfo[n].source);
      var i := 0;
      while i < NEW_BUCKETS
        invariant 0 <= i <= NEW_BUCKETS
        invariant Kept(pl, Now()) && Dim(vvNew, NEW_BUCKETS)
        invariant n in mapInfo && mapInfo == SetRefs(m0, n, mapInfo[n].nRefCount)
        invariant Swept(pl, vvNew, start, i, n, m0[n].addr) && PartErased(old(vvNew), vvNew, n)
      {
        ghost var t := vvNew;
        var bucket := (start + i) % NEW_BUCKETS;
        var pos := pl.Position(true, bucket, mapInfo[n].addr);
        if vvNew[bucket][pos] == n {
          ClearKept(pl, Now(), bucket, pos);
          PartErasedPut(old(vvNew), vvNew, n, bucket, pos);
          vvNew := Put(vvNew, bucket, pos, EMPTY);
          mapInfo := mapInfo[n := mapInfo[n].(nRefCount := mapInfo[n].nRefCount - 1)];
          if mapInfo[n].nRefCount == 0 {
            ErasedFrom(pl, Now(), old(vvNew), n);
            return;
          }
        }
        SweepStep(pl, t, vvNew, start, i, n, m0[n].addr);
        i := i + 1;
      }
      SweptAll(pl, Now(), start, n);
      ErasedFrom(pl, Now(), old(vvNew), n);
    }

    /** Takes the entry in a tried slot out of the tried table; it is then in neither. */
    method Untry(b: nat, p: nat, ghost limbo: set<int>) returns (e: int)
      requires SettledBut(pl, Now(), limbo)
      requires Dim(vvTried, TRIED_BUCKETS) && b < TRIED_BUCKETS && p < BUCKET_SIZE && vvTried[b][p] != EMPTY
      modifies this`mapInfo, this`nTried, this`networkCounts, this`triedIds, this`vvTried
      ensures e == old(vvTried)[b][p] && e in old(triedIds) && e in old(mapInfo) && triedIds == old(triedIds) - {e}
      ensures e !in newIds
      ensures SettledBut(pl, Now(), limbo + {e})
      ensures mapInfo == SetTried(old(mapInfo), e, false) && vvTried == Put(old(vvTried), b, p, EMPTY)
    {
      hide Kept;
      DimFacts(pl, Now());
      e := vvTried[b][p];
      LeaveTriedKept(pl, Now(), b, p);
      mapInfo := mapInfo[e := mapInfo[e].(fInTried := false)];
      vvTried := Put(vvTried, b, p, EMPTY);
      nTried := nTried - 1;
      networkCounts := Bump(networkCounts, pl.network(mapInfo[e].addr), 0, -1);
      triedIds := triedIds - {e};
    }

    /** Enters an unreferenced entry into the new table again, at an empty slot of its own. */
    method Refile(e: int, b: nat, p: nat, ghost limbo: set<int>)
      requires SettledBut(pl, Now(), limbo + {e}) && e in mapInfo && e !in limbo && e !in newIds && e !in triedIds
      requires Dim(vvNew, NEW_BUCKETS) && b < NEW_BUCKETS && p == pl.Position(true, b, mapInfo[e].addr)
      requires vvNew[b][p] == EMPTY
      modifies this`mapInfo, this`nNew, this`networkCounts, this`newIds, this`vvNew
      ensures SettledBut(pl, Now(), limbo)
      ensures mapInfo == SetRefs(old(mapInfo), e, 1) && newIds == old(newIds) + {e}
      ensures vvNew == Put(old(vvNew), b, p, e)
    {
      hide Kept;
      FillKept(pl, Now(), b, p, e);
      mapInfo := mapInfo[e := mapInfo[e].(nRefCount := 1)];
      vvNew := Put(vvNew, b, p, e);
      EnterNewKept(pl, Now(), e);
      nNew := nNew + 1;
      networkCounts := Bump(networkCounts, pl.network(mapInfo[e].addr), 1, 0);
      newIds := newIds + {e};
    }

    /** Moves the entry in a tried slot back to the new table, making room there first. */
    method MakeRoom(b: nat, p: nat, ghost n: int)
      requires SettledBut(pl, Now(), {n}) && n in mapInfo && n !in newIds && n !in triedIds
      requires b == pl.TriedBucket(mapInfo[n].addr) && p == pl.Position(false, b, mapInfo[n].addr)
      requires Dim(vvTried, TRIED_BUCKETS) && vvTried[b][p] != EMPTY
      modifies this`mapInfo, this`vRandom, this`mapAddr, this`nNew, this`nTried, this`networkCounts
      modifies this`newIds, this`triedIds, this`vvNew, this`vvTried
      ensures SettledBut(pl, Now(), {n}) && n in mapInfo && n !in newIds && n !in triedIds
      ensures Dim(old(vvNew), NEW_BUCKETS) && RoomMade(pl, old(Now()), Now(), n)
    {
      hide Kept, SettledBut;
      SettledFacts(pl, Now(), {n});
      var e := Untry(b, p, {n});
      var nb := pl.NewBucket(mapInfo[e].addr, mapInfo[e].source);
      var np := pl.Position(true, nb, mapInfo[e].addr);
      SettledFacts(pl, Now(), {n} + {e});
      ClearNew(nb, np, {n} + {e});
      assert vvNew[nb][np] == EMPTY;
      SettledFacts(pl, Now(), {n} + {e});
      ghost var m := mapInfo;
      Refile(e, nb, np, {n});
      PutTwice(old(vvNew), nb, np, EMPTY, e);
      EvictSteps(old(mapInfo), e, old(vvNew)[nb][np], m, mapInfo);
    }

    /** Moves an entry from the new table to the tried table, evicting whoever holds its slot. */
    method MakeTried(n: int)
      requires Settled(pl, Now()) && n in newIds && n in mapInfo && mapInfo[n].lastSuccess > 0
      modifies this`mapInfo, this`vRandom, this`mapAddr, this`nNew, this`nTried, this`networkCounts
      modifies this`newIds, this`triedIds, this`vvNew, this`vvTried
      ensures Settled(pl, Now()) && n in triedIds
      ensures Dim(old(vvNew), NEW_BUCKETS) && Dim(old(vvTried), TRIED_BUCKETS) && Promoted(pl, old(Now()), Now(), n)
    {
      hide Kept, SettledBut, Promoted, RoomMade;
      SettledFacts(pl, Now(), {});
      Unlist(n);
      ghost var k := Now();
      var b := pl.TriedBucket(mapInfo[n].addr);
      var p := pl.Position(false, b, mapInfo[n].addr);
      if vvTried[b][p] != EMPTY {
        MakeRoom(b, p, n);
      } else {
        RoomThere(pl, k, n);
      }
      RoomFacts(pl, k, Now(), n);
      ghost var k1 := Now();
      Enlist(n, b, p);
      PromoteSteps(pl, old(Now()), k, k1, Now(), n);
    }

    /** Takes an entry out of the new table and out of its counters. */
    method Unlist(n: int)
      requires Settled(pl, Now()) && n in newIds && n in mapInfo
      modifies this`mapInfo, this`nNew, this`networkCounts, this`newIds, this`vvNew
      ensures SettledBut(pl, Now(), {n}) && newIds == old(newIds) - {n} && n !in triedIds
      ensures mapInfo == SetRefs(old(mapInfo), n, 0) && vvNew == Erase(old(vvNew), n)
      ensures Dim(vvTried, TRIED_BUCKETS)
    {
      hide Kept;
      DropReferences(n);
      LeaveNewKept(pl, Now(), n);
      DimFacts(pl, Now());
      nNew := nNew - 1;
      networkCounts := Bump(networkCounts, pl.network(mapInfo[n].addr), -1, 0);
      newIds := newIds - {n};
      assert mapInfo[n].nRefCount == 0;
    }

    /** Puts an unreferenced entry into its own, empty, tried slot. */
    method Enlist(n: int, b: nat, p: nat)
      requires SettledBut(pl, Now(), {n}) && n in mapInfo && n !in newIds && n !in triedIds
      requires mapInfo[n].lastSuccess > 0
      requires b == pl.TriedBucket(mapInfo[n].addr) && p == pl.Position(false, b, mapInfo[n].addr)
      requires Dim(vvTried, TRIED_BUCKETS) && vvTried[b][p] == EMPTY
      modifies this`mapInfo, this`nTried, this`networkCounts, this`triedIds, this`vvTried
      ensures Settled(pl, Now()) && triedIds == old(triedIds) + {n}
      ensures vvTried == Put(old(vvTried), b, p, n) && mapInfo == SetTried(old(mapInfo), n, true)
    {
      hide Kept;
      EnterTriedKept(pl, Now(), n);
      vvTried := Put(vvTried, b, p, n);
      nTried := nTried + 1;
      mapInfo := mapInfo[n := mapInfo[n].(fInTried := true)];
      networkCounts := Bump(networkCounts, pl.network(mapInfo[n].addr), 0, 1);
      triedIds := triedIds + {n};
    }

    // ---------- looking up and creating ----------

    constructor (pl: Placement, nKey: nat)
      requires nKey != 0
      ensures Consistent() && this.pl == pl && this.nKey == nKey
      ensures mapInfo == map[] && triedCollisions == {} && nIdCount == 0
    {
      this.pl, this.nKey := pl, nKey;
      nIdCount, mapInfo, mapAddr, vRandom := 0, map[], map[], [];
      nTried, nNew, lastGood, triedCollisions, networkCounts := 0, 0, 1, {}, map[];
      vvNew := seq(NEW_BUCKETS, _ => seq(BUCKET_SIZE, _ => EMPTY));
      vvTried := seq(TRIED_BUCKETS, _ => seq(BUCKET_SIZE, _ => EMPTY));
      newIds, triedIds := {}, {};
    }

    method Find(addr: Service) returns (found: bool, n: int)
      requires Kept(pl, Now())
      ensures found <==> addr in mapAddr
      ensures found ==> n == mapAddr[addr] && n in mapInfo && mapInfo[n].addr == addr
      ensures found ==> (mapInfo[n].fInTried <==> n in triedIds) && n < nIdCount
      ensures found ==> mapInfo[n].lastSuccess >= 0 && mapInfo[n].lastTry >= 0
    {
      found, n := addr in mapAddr, EMPTY;
      if found {
        n := mapAddr[addr];
        found := n in mapInfo;
      }
    }

    method Create(addr: Service, nTime: int, nServices: set<nat>, source: NetAddr) returns (n: int)
      requires Settled(pl, Now()) && addr !in mapAddr
      modifies this`nIdCount, this`mapInfo, this`mapAddr, this`vRandom, this`nNew, this`networkCounts, this`newIds
      ensures SettledBut(pl, Now(), {n}) && n == old(nIdCount) && nIdCount == n + 1
      ensures n !in old(mapInfo) && n in mapInfo && n in newIds && newIds == old(newIds) + {n} && n !in triedIds
      ensures mapInfo == old(mapInfo)[n := Fresh(addr, nTime, nServices, source, |old(vRandom)|)]
    {
      hide Kept, SettledBut, Bump;
      var info := Fresh(addr, nTime, nServices, source, -1);
      ghost var k := Now();
      n := nIdCount;
      nIdCount := nIdCount + 1;
      mapInfo := mapInfo[n := info];
      mapAddr := mapAddr[addr := n];
      mapInfo := mapInfo[n := mapInfo[n].(nRandomPos := |vRandom|)];
      vRandom := vRandom + [n];
      nNew := nNew + 1;
      networkCounts := Bump(networkCounts, pl.network(addr), 1, 0);
      newIds := newIds + {n};
      MapTwice(k.m, n, info, mapInfo[n]);
      Appended(pl, k, info, Now());
    }

    /** Overwrites what the structures do not refer to. */
    method Update(n: int, info: AddrInfo, ghost limbo: set<int>)
      requires SettledBut(pl, Now(), limbo) && n in mapInfo && SameRole(mapInfo[n], info)
      requires info.lastTry >= 0 && info.lastSuccess >= 0 && (n in triedIds ==> info.lastSuccess > 0)
      modifies this`mapInfo
      ensures SettledBut(pl, Now(), limbo) && mapInfo == old(mapInfo)[n := info]
    {
      hide Kept;
      TouchKept(pl, Now(), n, info);
      mapInfo := mapInfo[n := info];
    }

    // ---------- adding ----------

    /** Gives an entry a slot of the new table if there is a case for it; one left without any is forgotten. */
    method PlaceNew(n: int, source: NetAddr, now: int, ghost limbo: set<int>) returns (inserted: bool)
      requires SettledBut(pl, Now(), limbo) && limbo <= {n}
      requires n in mapInfo && n in newIds && mapInfo[n].nRefCount < NEW_BUCKETS_PER_ADDRESS
      requires n in limbo <==> mapInfo[n].nRefCount == 0
      modifies this`mapInfo, this`vRandom, this`mapAddr, this`nNew, this`networkCounts, this`newIds, this`vvNew
      ensures Settled(pl, Now())
      ensures Dim(old(vvNew), NEW_BUCKETS)
      ensures Placed(pl, old(mapInfo), old(vvNew), n, source, now, mapInfo, vvNew, inserted)
    {
      hide Kept, SettledBut, Dim;
      SettledFacts(pl, Now(), limbo);
      var b := pl.NewBucket(mapInfo[n].addr, source);
      var p := pl.Position(true, b, mapInfo[n].addr);
      DimAt(vvNew, NEW_BUCKETS, b);
      inserted := vvNew[b][p] == EMPTY;
      NewSlotFacts(pl, Now(), b, p, limbo);
      if vvNew[b][p] != n {
        if !inserted {
          var existing := mapInfo[vvNew[b][p]];
          inserted := IsTerrible(existing, now) || (existing.nRefCount > 1 && mapInfo[n].nRefCount == 0);
        }
        if inserted {
          TakeSlot(n, b, p, limbo);
        } else if mapInfo[n].nRefCount == 0 {
          assert limbo == {n};
          DeleteLimbo(n);
        } else {
          EmptyLimbo(limbo, n);
        }
      } else {
        EmptyLimbo(limbo, n);
      }
    }

    method TakeSlot(n: int, b: nat, p: nat, ghost limbo: set<int>)
      requires SettledBut(pl, Now(), limbo) && limbo <= {n}
      requires n in mapInfo && n in newIds && mapInfo[n].nRefCount < NEW_BUCKETS_PER_ADDRESS
      requires Dim(vvNew, NEW_BUCKETS) && b < NEW_BUCKETS && p == pl.Position(true, b, mapInfo[n].addr)
      requires vvNew[b][p] != n
      modifies this`mapInfo, this`vRandom, this`mapAddr, this`nNew, this`networkCounts, this`newIds, this`vvNew
      ensures Settled(pl, Now()) && vvNew == Put(old(vvNew), b, p, n)
      ensures SameEntries(
        Released(old(mapInfo), old(vvNew)[b][p])[n := old(mapInfo)[n].(nRefCount := old(mapInfo)[n].nRefCount + 1)],
        mapInfo)
    {
      hide Kept, SettledBut;
      ClearNew(b, p, limbo);
      ghost var m := mapInfo;
      TakeReady(old(mapInfo), old(vvNew)[b][p], m, n);
      AddReference(n, b, p, limbo);
      PutTwice(old(vvNew), b, p, EMPTY, n);
    }

    method AddReference(n: int, b: nat, p: nat, ghost limbo: set<int>)
      requires SettledBut(pl, Now(), limbo) && limbo <= {n}
      requires n in mapInfo && n in newIds && mapInfo[n].nRefCount < NEW_BUCKETS_PER_ADDRESS
      requires Dim(vvNew, NEW_BUCKETS) && b < NEW_BUCKETS && p == pl.Position(true, b, mapInfo[n].addr)
      requires vvNew[b][p] == EMPTY
      modifies this`mapInfo, this`vvNew
      ensures Settled(pl, Now()) && mapInfo == SetRefs(old(mapInfo), n, old(mapInfo)[n].nRefCount + 1)
      ensures vvNew == Put(old(vvNew), b, p, n)
    {
      hide Kept;
      DimFacts(pl, Now());
      FillKept(pl, Now(), b, p, n);
      mapInfo := mapInfo[n := mapInfo[n].(nRefCount := mapInfo[n].nRefCount + 1)];
      vvNew := Put(vvNew, b, p, n);
    }

    method DeleteLimbo(n: int)
      requires SettledBut(pl, Now(), {n}) && n in mapInfo && n in newIds && mapInfo[n].nRefCount == 0
      modifies this`mapInfo, this`vRandom, this`mapAddr, this`nNew, this`networkCounts, this`newIds
      ensures Settled(pl, Now()) && SameEntries(old(mapInfo) - {n}, mapInfo)
    {
      hide Kept;
      KeptIff(pl, Now());
      Delete(n);
    }

    /** What is already known about an address may be refreshed; the answer says whether to go on and place it. */
    method Refresh(n: int, nTime: int, nServices: set<nat>, penalty: int, now: int, luck: bool) returns (goOn: bool)
      requires Settled(pl, Now()) && n in mapInfo
      modifies this`mapInfo
      ensures Settled(pl, Now())
      ensures mapInfo == old(mapInfo)[n := Refreshed(old(mapInfo)[n], nTime, nServices, penalty, now)]
      ensures goOn == WorthPlacing(mapInfo[n], nTime, luck)
      ensures goOn ==> n in newIds && 1 <= mapInfo[n].nRefCount < NEW_BUCKETS_PER_ADDRESS
    {
      hide Kept;
      EntryFacts(pl, Now(), n);
      var info := mapInfo[n];
      var currentlyOnline := now - nTime < 24 * HOUR;
      var updateInterval := if currentlyOnline then HOUR else 24 * HOUR;
      if info.nTime < nTime - updateInterval - penalty {
        info := info.(nTime := Max(0, nTime - penalty));
      }
      info := info.(nServices := info.nServices + nServices);
      Update(n, info, {});
      if nTime <= info.nTime || info.fInTried || info.nRefCount == NEW_BUCKETS_PER_ADDRESS {
        return false;
      }
      // one chance in 2^nRefCount
      goOn := info.nRefCount == 0 || luck;
    }

    /**
     Adds one address heard of from `source`. `now` is the clock and `luck` the
     outcome of the random test that makes each further reference rarer.
     */
    method AddSingle(
      addr: Service, nTime: int, nServices: set<nat>, source: NetAddr, timePenalty: int, now: int, luck: bool)
      returns (added: bool)
      requires Consistent()
      modifies this`mapInfo, this`vRandom, this`mapAddr, this`nIdCount, this`nNew, this`networkCounts, this`newIds,
        this`vvNew
      ensures Consistent() && IdsAge(old(mapInfo), old(nIdCount), mapInfo, nIdCount)
      ensures Offered(pl, old(Now()), Heard(addr, nTime, nServices), source, timePenalty, now, luck, Now(), added)
      ensures nIdCount == old(nIdCount) + if pl.routable(addr) && addr !in old(mapAddr) then 1 else 0
      ensures added ==> pl.routable(addr)
      ensures added ==> addr in mapAddr
      ensures !added ==> vvNew == old(vvNew) && mapInfo.Keys == old(mapInfo).Keys
    {
      hide Kept, SettledBut, Placed, Dim, Pending;
      SettledFacts(pl, Now(), {});
      ConsistentIds();
      if !pl.routable(addr) {
        return false;
      }
      var found, n := FindSettled(addr);
      var penalty := if addr.ip == source then 0 else timePenalty;
      if found {
        var goOn := Refresh(n, nTime, nServices, penalty, now, luck);
        if !goOn {
          PendingTouched(pl, old(mapInfo), vvTried, triedCollisions, nIdCount, n, mapInfo[n]);
          return false;
        }
        ghost var m := mapInfo;
        added := PlaceNew(n, source, now, {});
        PlacedAges(pl, old(Now()), triedCollisions, m, n, source, now, Now(), added);
        PlacedOrNot(pl, m, old(vvNew), n, source, now, Now(), added);
      } else {
        added := AddUnknown(addr, nTime, nServices, source, penalty, now);
        assert Noted(old(Now()), Heard(addr, nTime, nServices), source, timePenalty, now)
            == old(mapInfo)[old(nIdCount) := Fresh(addr, Max(0, nTime - penalty), nServices, source, |old(vRandom)|)];
      }
    }

    method AddUnknown(
      addr: Service, nTime: int, nServices: set<nat>, source: NetAddr, penalty: int, now: int) returns (added: bool)
      requires Consistent() && addr !in mapAddr
      modifies this`mapInfo, this`vRandom, this`mapAddr, this`nIdCount, this`nNew, this`networkCounts, this`newIds,
        this`vvNew
      ensures Consistent() && IdsAge(old(mapInfo), old(nIdCount), mapInfo, nIdCount) && nIdCount == old(nIdCount) + 1
      ensures Dim(old(vvNew), NEW_BUCKETS)
      ensures Placed(pl,
        old(mapInfo)[old(nIdCount) := Fresh(addr, Max(0, nTime - penalty), nServices, source, |old(vRandom)|)],
                     old(vvNew), old(nIdCount), source, now, mapInfo, vvNew, added)
      ensures added ==> addr in mapAddr
      ensures !added ==> vvNew == old(vvNew) && mapInfo.Keys == old(mapInfo).Keys
    {
      hide Kept, SettledBut, Placed, Dim, Pending;
      ConsistentIds();
      var n := Create(addr, nTime, nServices, source);
      Update(n, mapInfo[n].(nTime := Max(0, mapInfo[n].nTime - penalty)), {n});
      ghost var m := mapInfo;
      assert m == old(mapInfo)[n := Fresh(addr, Max(0, nTime - penalty), nServices, source, |old(vRandom)|)];
      added := PlaceNew(n, source, now, {n});
      PlacedAges(pl, old(Now()), triedCollisions, m, n, source, now, Now(), added);
      PlacedOrNot(pl, m, old(vvNew), n, source, now, Now(), added);
      assert m.Keys - {n} == old(mapInfo).Keys;
    }

    method FindSettled(addr: Service) returns (found: bool, n: int)
      requires Settled(pl, Now())
      ensures found <==> addr in mapAddr
      ensures found ==> n == mapAddr[addr] && n in mapInfo && mapInfo[n].addr == addr
    {
      found, n := Find(addr);
    }

    /** Adds a batch of addresses, each of them in turn; clock and luck are free for each. */
    method Add(vAddr: seq<Heard>, source: NetAddr, timePenalty: int) returns (ret: bool, ghost log: seq<Offer>)
      requires Consistent()
      modifies this`mapInfo, this`vRandom, this`mapAddr, this`nIdCount, this`nNew, this`networkCounts, this`newIds,
        this`vvNew
      ensures Consistent() && IdsAge(old(mapInfo), old(nIdCount), mapInfo, nIdCount)
      ensures nIdCount <= old(nIdCount) + |vAddr|
      ensures ret ==> exists i :: 0 <= i < |vAddr| && pl.routable(vAddr[i].addr)
      ensures AllOffered(pl, old(Now()), vAddr, source, timePenalty, log, Now())
      ensures ret <==> exists i :: 0 <= i < |log| && log[i].added
      ensures !ret ==> vvNew == old(vvNew) && mapInfo.Keys == old(mapInfo).Keys
    {
      hide Kept, SettledBut, Pending, Placed, Dim, Offered;
      ConsistentIds();
      SameFilled(vvTried);
      var added := 0;
      log := [];
      assert vAddr[..0] == [];
      for i := 0 to |vAddr|
        invariant Consistent() && IdsAge(old(mapInfo), old(nIdCount), mapInfo, nIdCount)
        invariant |log| == i && AllOffered(pl, old(Now()), vAddr[..i], source, timePenalty, log, Now())
        invariant added == 0 ==> vvNew == old(vvNew) && mapInfo.Keys == old(mapInfo).Keys
        invariant nIdCount <= old(nIdCount) + i
        invariant added > 0 ==> exists j :: 0 <= j < i && pl.routable(vAddr[j].addr)
        invariant added >= 0 && (added > 0 <==> exists j :: 0 <= j < |log| && log[j].added)
      {
        var now: int, luck: bool := *, *;
        ghost var m, k, books := mapInfo, nIdCount, Now();
        var one := AddSingle(vAddr[i].addr, vAddr[i].nTime, vAddr[i].nServices, source, timePenalty, now, luck);
        ghost var offer := Offer(now, luck, one, books, Now());
        OneMoreOffered(pl, old(Now()), vAddr, source, timePenalty, log, books, offer);
        AnyMoreAdded(log, offer);
        log := log + [offer];
        if one {
          added := added + 1;
        }
        AgesThrough(old(mapInfo), old(nIdCount), vvTried, m, k, vvTried, mapInfo, nIdCount, vvTried);
      }
      assert vAddr[..|vAddr|] == vAddr;
      ret := added > 0;
    }

    lemma AnyMoreAdded(log: seq<Offer>, offer: Offer)
      ensures (exists j :: 0 <= j < |log + [offer]| && (log + [offer])[j].added)
         <==> (exists j :: 0 <= j < |log| && log[j].added) || offer.added
    {
      if j :| 0 <= j < |log| && log[j].added {
        assert (log + [offer])[j].added;
      }
      assert (log + [offer])[|log|] == offer;
    }

    lemma ConsistentIds()
      requires Consistent()
      ensures forall n :: n in mapInfo ==> n < nIdCount
    {
    }

    // ---------- contact with a peer ----------

    /**
     Records a successful connection and moves the address to the tried table. When a
     move would evict another entry and the caller wants that one tested first, the
     collision is noted instead, if there is room among the pending ones.
     */
    method Good(addr: Service, testBeforeEvict: bool, time: int) returns (moved: bool)
      requires Consistent() && time > 0
      modifies this
      ensures Consistent() && Fewer(old(mapInfo), mapInfo) && nIdCount == old(nIdCount)
      ensures StillFilled(old(vvTried), vvTried)
      ensures lastGood == time && Dim(old(vvNew), NEW_BUCKETS) && Dim(old(vvTried), TRIED_BUCKETS)
      ensures addr in old(mapAddr) ==> old(mapAddr)[addr] in old(mapInfo)
      ensures moved <==> addr in old(mapAddr) && MayMove(pl, old(Now()), old(mapAddr)[addr], testBeforeEvict)
      ensures testBeforeEvict ==> old(triedIds) <= triedIds
      ensures moved ==> var n := old(mapAddr)[addr];
                        Promoted(pl, Touch(old(Now()), n, Reached(old(mapInfo)[n], time)), Now(), n)
      ensures !moved && addr in old(mapAddr) ==>
                var n := old(mapAddr)[addr]; Now() == Touch(old(Now()), n, Reached(old(mapInfo)[n], time))
      ensures addr !in old(mapAddr) ==> Now() == old(Now())
      ensures var noted := !moved && addr in old(mapAddr) && !old(mapInfo)[old(mapAddr)[addr]].fInTried
        && |old(triedCollisions)| < MAX_COLLISIONS;
              triedCollisions == old(triedCollisions) + if noted then {old(mapAddr)[addr]} else {}
      ensures testBeforeEvict ==> GoodDone(pl, old(OnDesk()), addr, time, OnDesk())
    {
      hide Kept, SettledBut, Promoted;
      SettledFacts(pl, Now(), {});
      lastGood := time;
      var found, n := FindSettled(addr);
      if !found {
        return false;
      }
      moved := GoodKnown(n, testBeforeEvict, time);
    }

    method GoodKnown(n: int, testBeforeEvict: bool, time: int) returns (moved: bool)
      requires Consistent() && n in mapInfo && time > 0
      modifies this
      ensures Consistent() && Fewer(old(mapInfo), mapInfo) && nIdCount == old(nIdCount)
      ensures StillFilled(old(vvTried), vvTried)
      ensures lastGood == old(lastGood) && Dim(old(vvNew), NEW_BUCKETS) && Dim(old(vvTried), TRIED_BUCKETS)
      ensures moved <==> MayMove(pl, old(Now()), n, testBeforeEvict)
      ensures testBeforeEvict ==> old(triedIds) <= triedIds
      ensures var k := Touch(old(Now()), n, Reached(old(mapInfo)[n], time));
              if moved then Promoted(pl, k, Now(), n) else Now() == k
      ensures var noted := !moved && !old(mapInfo)[n].fInTried && |old(triedCollisions)| < MAX_COLLISIONS;
              triedCollisions == old(triedCollisions) + if noted then {n} else {}
    {
      hide Kept, SettledBut, Promoted, Pending, StillFilled, Dim;
      SettledEntry(pl, Now(), n);
      SettledFacts(pl, Now(), {});
      var info := mapInfo[n].(lastSuccess := time, lastTry := time, nAttempts := 0);
      Update(n, info, {});
      PendingTouched(pl, old(mapInfo), vvTried, triedCollisions, nIdCount, n, info);
      if info.fInTried {
        return false;
      }
      if info.nRefCount <= 0 {
        assert false;  // an entry that is not tried is in the new table
      }
      var b := pl.TriedBucket(info.addr);
      var p := pl.Position(false, b, info.addr);
      if testBeforeEvict && vvTried[b][p] != EMPTY {
        if |triedCollisions| < MAX_COLLISIONS {
          PendingMore(pl, mapInfo, vvTried, triedCollisions, nIdCount, n);
          triedCollisions := triedCollisions + {n};
        }
        moved := false;
      } else {
        MoveToTried(n);
        moved := true;
      }
    }

    method MoveToTried(n: int)
      requires Consistent() && n in newIds && n in mapInfo && mapInfo[n].lastSuccess > 0
      modifies this`mapInfo, this`vRandom, this`mapAddr, this`nNew, this`nTried, this`networkCounts
      modifies this`newIds, this`triedIds, this`vvNew, this`vvTried
      ensures Consistent() && Fewer(old(mapInfo), mapInfo) && StillFilled(old(vvTried), vvTried)
      ensures Dim(old(vvNew), NEW_BUCKETS) && Dim(old(vvTried), TRIED_BUCKETS) && Promoted(pl, old(Now()), Now(), n)
      ensures TriedSlot(pl, old(vvTried), old(mapInfo)[n].addr) == EMPTY ==> old(triedIds) <= triedIds
    {
      hide Kept, SettledBut, Promoted, Pending;
      ghost var k := Now();
      SettledFacts(pl, k, {});
      MakeTried(n);
      PromotedFacts(pl, k, Now(), n);
      PendingAges(pl, k.m, k.triedT, triedCollisions, nIdCount, mapInfo, vvTried, triedCollisions, nIdCount);
    }

    method Attempt(addr: Service, fCountFailure: bool, time: int)
      requires Consistent() && time >= 0
      modifies this`mapInfo
      ensures Consistent() && Fewer(old(mapInfo), mapInfo)
      ensures addr in mapAddr ==>
                && mapAddr[addr] in old(mapInfo)
                && var i := old(mapInfo)[mapAddr[addr]];
                   var counted := fCountFailure && i.lastCountAttempt < lastGood;
                   mapInfo == old(mapInfo)[mapAddr[addr] := i.(lastTry := time,
                     lastCountAttempt := if counted then time else i.lastCountAttempt,
                     nAttempts := if counted then i.nAttempts + 1 else i.nAttempts)]
      ensures addr !in mapAddr ==> mapInfo == old(mapInfo)
      ensures Now() == Attempted(old(Now()), addr, fCountFailure, lastGood, time)
    {
      hide Kept, SettledBut;
      var found, n := FindSettled(addr);
      if !found {
        return;
      }
      SettledEntry(pl, Now(), n);
      var info := mapInfo[n].(lastTry := time);
      if fCountFailure && info.lastCountAttempt < lastGood {
        info := info.(lastCountAttempt := time, nAttempts := info.nAttempts + 1);
      }
      Update(n, info, {});
      PendingAges(pl, old(mapInfo), vvTried, triedCollisions, nIdCount, mapInfo, vvTried, triedCollisions, nIdCount);
    }

    method Connected(addr: Service, time: int)
      requires Consistent()
      modifies this`mapInfo
      ensures Consistent() && Fewer(old(mapInfo), mapInfo)
      ensures addr in mapAddr ==> mapAddr[addr] in old(mapInfo)
      ensures var stale := addr in mapAddr && time - old(mapInfo)[mapAddr[addr]].nTime > 20 * 60;
              mapInfo ==
                if stale then old(mapInfo)[mapAddr[addr] := old(mapInfo)[mapAddr[addr]].(nTime := time)]
                else old(mapInfo)
      ensures Now() == Seen(old(Now()), addr, time)
    {
      hide Kept, SettledBut;
      var found, n := FindSettled(addr);
      if found && time - mapInfo[n].nTime > 20 * 60 {
        SettledEntry(pl, Now(), n);
        Update(n, mapInfo[n].(nTime := time), {});
        PendingAges(pl, old(mapInfo), vvTried, triedCollisions, nIdCount, mapInfo, vvTried, triedCollisions, nIdCount);
      }
    }

    method SetServices(addr: Service, nServices: set<nat>)
      requires Consistent()
      modifies this`mapInfo
      ensures Consistent() && Fewer(old(mapInfo), mapInfo)
      ensures addr in mapAddr ==> mapAddr[addr] in old(mapInfo)
      ensures mapInfo ==
        if addr in mapAddr then old(mapInfo)[mapAddr[addr] := old(mapInfo)[mapAddr[addr]].(nServices := nServices)]
                         else old(mapInfo)
      ensures Now() == Serving(old(Now()), addr, nServices)
    {
      hide Kept, SettledBut;
      var found, n := FindSettled(addr);
      if found {
        SettledEntry(pl, Now(), n);
        Update(n, mapInfo[n].(nServices := nServices), {});
        PendingAges(pl, old(mapInfo), vvTried, triedCollisions, nIdCount, mapInfo, vvTried, triedCollisions, nIdCount);
      }
    }

    // ---------- pending collisions ----------

    /** Decides one pending collision at a reading of the clock: drop it, keep it, or let the newcomer have the slot. */
    method ResolveOne(n: int, currentTime: Time) returns (erase: bool)
      requires Consistent() && n in triedCollisions
      modifies this
      ensures Consistent() && Fewer(old(mapInfo), mapInfo) && nIdCount == old(nIdCount)
      ensures StillFilled(old(vvTried), vvTried)
      ensures triedCollisions == old(triedCollisions)
      ensures Ruled(pl, old(Now()), n, currentTime, Now(), erase)
    {
      hide Kept, SettledBut, Promoted;
      SettledFacts(pl, Now(), {});
      if n !in mapInfo {
        return true;
      }
      var info := mapInfo[n];
      var b := pl.TriedBucket(info.addr);
      var p := pl.Position(false, b, info.addr);
      if !pl.valid(info.addr) {
        return true;
      }
      if vvTried[b][p] == EMPTY {
        assert false;  // the slot of a pending collision is never found empty
      }
      TriedSlotKnown(pl, Now(), n);
      var infoOld := mapInfo[vvTried[b][p]];
      erase := false;
      if currentTime - infoOld.lastSuccess < ADDRMAN_REPLACEMENT {
        erase := true;
      } else if currentTime - infoOld.lastTry < ADDRMAN_REPLACEMENT {
        if currentTime - infoOld.lastTry > 60 {
          Replace(n, currentTime);
          erase := true;
        }
      } else if currentTime - info.lastSuccess > ADDRMAN_TEST_WINDOW {
        Replace(n, currentTime);
        erase := true;
      }
    }

    method Replace(n: int, currentTime: Time)
      requires Consistent() && n in mapInfo
      modifies this
      ensures Consistent() && Fewer(old(mapInfo), mapInfo) && nIdCount == old(nIdCount)
      ensures StillFilled(old(vvTried), vvTried)
      ensures triedCollisions == old(triedCollisions) && Met(pl, old(Now()), n, currentTime, Now())
    {
      hide Kept, SettledBut, Promoted, Pending, Dim;
      KnownFacts(pl, Now(), n);
      var moved := Good(mapInfo[n].addr, false, currentTime);
    }

    /** Rules on one pending collision at some reading of the clock, and strikes it off unless it is kept. */
    method RuleOn(n: int) returns (ghost r: Ruling)
      requires Consistent() && n in triedCollisions
      modifies this
      ensures Consistent() && Fewer(old(mapInfo), mapInfo) && nIdCount == old(nIdCount)
      ensures StillFilled(old(vvTried), vvTried)
      ensures r.id == n && r.before == old(Now()) && r.after == Now()
      ensures Ruled(pl, r.before, n, r.time, r.after, r.erased)
      ensures triedCollisions == if r.erased then old(triedCollisions) - {n} else old(triedCollisions)
      ensures !r.erased ==> n in old(mapInfo)
    {
      hide Kept, SettledBut, Ruled;
      var currentTime: Time := *;
      var erase := ResolveOne(n, currentTime);
      r := Ruling(n, currentTime, erase, old(Now()), Now());
      if erase {
        PendingAges(pl, mapInfo, vvTried, triedCollisions, nIdCount, mapInfo, vvTried, triedCollisions - {n}, nIdCount);
        triedCollisions := triedCollisions - {n};
      } else {
        RuledKnown(pl, old(Now()), n, currentTime, Now());
      }
    }

    /**
     Rules on every pending collision in ascending order; the clock is read anew for each. Unknown
     ones never survive.
     */
    method ResolveCollisions() returns (ghost log: seq<Ruling>)
      requires Consistent()
      modifies this
      ensures Consistent() && Fewer(old(mapInfo), mapInfo) && nIdCount == old(nIdCount)
      ensures StillFilled(old(vvTried), vvTried)
      ensures triedCollisions <= old(triedCollisions) && triedCollisions <= old(mapInfo).Keys
      ensures AllRuled(pl, old(Now()), old(triedCollisions), log, Now(), triedCollisions)
    {
      hide Kept, SettledBut, Ruled, AllRuled;
      SettledFacts(pl, Now(), {});
      SameFilled(vvTried);
      AllBelow(triedCollisions, nIdCount);
      hide AddrManImpl.Consistent, StillFilled, Fewer;
      log := [];
      NoneRuled(pl, Now());
      var k := nIdCount;
      for n := 0 to k  // ascending, as the ordered set is walked; every pending id is below the counter
        invariant nIdCount == k && triedCollisions <= old(triedCollisions)
        invariant Consistent() && Fewer(old(mapInfo), mapInfo) && StillFilled(old(vvTried), vvTried)
        invariant forall j :: j in old(triedCollisions) && n <= j ==> j in triedCollisions
        invariant BelowId(triedCollisions, n) <= old(mapInfo).Keys
        invariant AllRuled(pl, old(Now()), BelowId(old(triedCollisions), n), log, Now(), BelowId(triedCollisions, n))
      {
        ghost var was, m, t := triedCollisions, mapInfo, vvTried;
        BelowNext(old(triedCollisions), n);
        BelowNext(was, n);
        if n in triedCollisions {
          ghost var r := RuleOn(n);
          OneMoreRuled(pl, old(Now()), BelowId(old(triedCollisions), n), log, r.before, BelowId(was, n), r);
          log := log + [r];
          BelowStruck(was, n);
          LessThrough(old(mapInfo), old(vvTried), m, t, mapInfo, vvTried);
        }
      }
      AllBelow(triedCollisions, k);
    }

    /** Takes the drawn pending collision `n` and names the tried entry it collides with; no entry is ever invented. */
    method SelectTriedCollision(n: int) returns (found: bool, tested: AddrInfo)
      requires Consistent() && (triedCollisions != {} ==> n in triedCollisions)
      modifies this`triedCollisions
      ensures Consistent()
      ensures found <==> old(triedCollisions) != {} && n in mapInfo
      ensures triedCollisions == old(triedCollisions) - if n in mapInfo then {} else {n}
      ensures found ==> && Dim(vvTried, TRIED_BUCKETS)
                        && var holder := TriedSlot(pl, vvTried, mapInfo[n].addr);
                           holder in triedIds && holder in mapInfo && tested == mapInfo[holder]
    {
      hide Kept, SettledBut;
      tested := AddrInfo(Service(0, 0), 0, 0, {}, 0, 0, 0, 0, 0, false, -1);
      if |triedCollisions| == 0 {
        return false, tested;
      }
      SettledFacts(pl, Now(), {});
      if n !in mapInfo {
        PendingAges(pl, mapInfo, vvTried, triedCollisions, nIdCount, mapInfo, vvTried, triedCollisions - {n}, nIdCount);
        triedCollisions := triedCollisions - {n};
        return false, tested;
      }
      var b := pl.TriedBucket(mapInfo[n].addr);
      var p := pl.Position(false, b, mapInfo[n].addr);
      TriedSlotKnown(pl, Now(), n);
      found, tested := true, mapInfo[vvTried[b][p]];
    }

    // ---------- reading ----------

    predicate Wanted(info: AddrInfo, network: Option<Network>, filtered: bool, now: int) {
      && (network.Some? ==> pl.netClass(info.addr) == network.value)
      && !(filtered && IsTerrible(info, now))
    }

    /** How many addresses a request may get: a percentage of all, and an absolute cap, each optional. */
    function Allowance(maxAddresses: nat, maxPct: nat): (a: nat)
      reads this
      ensures maxAddresses != 0 ==> a <= maxAddresses
      ensures if maxPct == 0 then a <= |vRandom| else 100 * a <= maxPct * |vRandom|
      ensures maxAddresses == 0 || a < maxAddresses ==>
        if maxPct == 0 then a == |vRandom| else 100 * (a + 1) > maxPct * |vRandom|
    {
      var n := if maxPct != 0 then maxPct * |vRandom| / 100 else |vRandom|;
      if maxAddresses != 0 && maxAddresses < n then maxAddresses else n
    }

    /**
     Draws addresses by shuffling the random order as it goes. The answer holds as
     many as the request allows or as there are fit entries, whichever is fewer,
     all of them fit and no entry twice. Only the random order changes.
     */
    method GetAddr(maxAddresses: nat, maxPct: nat, network: Option<Network>, filtered: bool, now: int)
      returns (addresses: seq<Heard>, ghost ids: seq<int>)
      requires Consistent()
      modifies this`mapInfo, this`vRandom
      ensures Consistent() && Reordered(old(mapInfo), mapInfo, {})
      ensures |ids| == |addresses| && forall i, j :: 0 <= i < j < |ids| ==> ids[i] != ids[j]
      ensures forall i :: 0 <= i < |ids| ==> ids[i] in mapInfo && Wanted(mapInfo[ids[i]], network, filtered, now)
                                             && addresses[i] == AddressOf(mapInfo[ids[i]])
      ensures var fit := set n | n in mapInfo && Wanted(mapInfo[n], network, filtered, now);
              |addresses| ==
                if |fit| < old(Allowance(maxAddresses, maxPct)) then |fit| else old(Allowance(maxAddresses, maxPct))
      ensures maxAddresses != 0 ==> |addresses| <= maxAddresses
      ensures maxPct != 0 ==> 100 * |addresses| <= maxPct * |old(vRandom)|
    {
      hide Kept, SettledBut, Pending, Wanted, Drawn, Allowance;
      var nNodes := Allowance(maxAddresses, maxPct);
      addresses, ids := [], [];
      var n := 0;
      DrawNone(mapInfo, network, filtered, now);
      assert vRandom[..0] == [];
      while n < |vRandom| && |addresses| < nNodes
        invariant 0 <= n <= |vRandom| && |vRandom| == |old(vRandom)| && |addresses| <= nNodes
        invariant Settled(pl, Now()) && Reordered(old(mapInfo), mapInfo, {})
        invariant Drawn(mapInfo, vRandom[..n], addresses, ids, network, filtered, now)
        decreases |vRandom| - n
      {
        var pos: int :| n <= pos < |vRandom|;
        ghost var m, v := mapInfo, vRandom;
        Shuffle(n, pos);
        DrawMoves(m, mapInfo, v[..n], addresses, ids, network, filtered, now);
        assert vRandom[..n] == v[..n] && vRandom[..n + 1] == vRandom[..n] + [vRandom[n]];
        SettledOrder(pl, Now(), n);
        DrawStep(mapInfo, vRandom[..n], addresses, ids, vRandom[n], network, filtered, now);
        var info := mapInfo[vRandom[n]];
        if Wanted(info, network, filtered, now) {
          addresses, ids := addresses + [AddressOf(info)], ids + [vRandom[n]];
        }
        n := n + 1;
      }
      DrawCount(pl, Now(), n, addresses, ids, network, filtered, now);
      DrawnFacts(mapInfo, vRandom[..n], addresses, ids, network, filtered, now);
      PendingAges(pl, old(mapInfo), vvTried, triedCollisions, nIdCount, mapInfo, vvTried, triedCollisions, nIdCount);
    }

    method Shuffle(p1: int, p2: int)
      requires Settled(pl, Now()) && 0 <= p1 <= p2 < |vRandom|
      modifies this`mapInfo, this`vRandom
      ensures Settled(pl, Now()) && Reordered(old(mapInfo), mapInfo, {})
      ensures vRandom == old(vRandom)[p1 := old(vRandom)[p2]][p2 := old(vRandom)[p1]]
    {
      hide Kept;
      KeptIff(pl, Now());
      SwapRandom(p1, p2);
    }

    /** The drawn ids are exactly the fit ones among the places passed, in order. */
    ghost predicate Drawn(
      m: Infos, passed: seq<int>, addresses: seq<Heard>, ids: seq<int>, network: Option<Network>, filtered: bool,
      now: int)
    {
      && |ids| == |addresses|
      && (forall i, j :: 0 <= i < j < |ids| ==> ids[i] != ids[j])
      && (forall i :: 0 <= i < |ids| ==> ids[i] in m && ids[i] in passed && Wanted(m[ids[i]], network, filtered, now)
                                         && addresses[i] == AddressOf(m[ids[i]]))
      && (forall n :: n in passed && n in m && Wanted(m[n], network, filtered, now) ==> n in ids)
    }

    lemma DrawNone(m: Infos, network: Option<Network>, filtered: bool, now: int)
      ensures Drawn(m, [], [], [], network, filtered, now)
    {
    }

    lemma DrawnFacts(
      m: Infos, passed: seq<int>, addresses: seq<Heard>, ids: seq<int>, network: Option<Network>, filtered: bool,
      now: int)
      requires Drawn(m, passed, addresses, ids, network, filtered, now)
      ensures |ids| == |addresses| && forall i, j :: 0 <= i < j < |ids| ==> ids[i] != ids[j]
      ensures forall i :: 0 <= i < |ids| ==> ids[i] in m && Wanted(m[ids[i]], network, filtered, now)
                                             && addresses[i] == AddressOf(m[ids[i]])
    {
    }

    lemma DrawMoves(
      m: Infos, m': Infos, passed: seq<int>, addresses: seq<Heard>, ids: seq<int>, network: Option<Network>,
      filtered: bool, now: int)
      requires Drawn(m, passed, addresses, ids, network, filtered, now) && Reordered(m, m', {})
      ensures Drawn(m', passed, addresses, ids, network, filtered, now)
    {
      forall n | n in m ensures Wanted(m'[n], network, filtered, now) == Wanted(m[n], network, filtered, now)
                                && AddressOf(m'[n]) == AddressOf(m[n]) {
        assert SameButPos(m[n], m'[n]);
      }
    }

    lemma DrawStep(
      m: Infos, passed: seq<int>, addresses: seq<Heard>, ids: seq<int>, n: int, network: Option<Network>,
      filtered: bool, now: int)
      requires Drawn(m, passed, addresses, ids, network, filtered, now) && n in m && n !in passed
      ensures if Wanted(m[n], network, filtered, now)
              then Drawn(m, passed + [n], addresses + [AddressOf(m[n])], ids + [n], network, filtered, now)
              else Drawn(m, passed + [n], addresses, ids, network, filtered, now)
    {
    }

    lemma DrawCount(
      pl: Placement, k: Books, n: int, addresses: seq<Heard>, ids: seq<int>, network: Option<Network>, filtered: bool,
      now: int)
      requires Settled(pl, k) && 0 <= n <= |k.order|
      requires Drawn(k.m, k.order[..n], addresses, ids, network, filtered, now)
      ensures var fit := set n | n in k.m && Wanted(k.m[n], network, filtered, now);
              |ids| <= |fit| && (n == |k.order| ==> |ids| == |fit|)
    {
      var fit := set n | n in k.m && Wanted(k.m[n], network, filtered, now);
      var drawn := set n | n in ids;
      DistinctSize(ids);
      forall n | n in drawn ensures n in fit {
      }
      CardSubset(drawn, fit);
      if n == |k.order| {
        forall x | x in fit ensures x in drawn {
          assert k.order[..n] == k.order;
          PlaceFacts(pl, k, x);
        }
        assert drawn == fit;
      }
    }

    /** The self-check: of a consistent manager it finds nothing, whatever the order of its hash table. */
    method CheckAddrman(order: seq<int>) returns (code: int)
      requires Dim(vvNew, NEW_BUCKETS) && Dim(vvTried, TRIED_BUCKETS) && EMPTY !in mapInfo
      requires AddrCheck.Walks(order, mapInfo)
      ensures code == 0 <==>
        AddrCheck.Passes(pl, nKey, mapInfo, mapAddr, vRandom, vvNew, vvTried, nNew, nTried, networkCounts)
      ensures Consistent() ==> code == 0
    {
      hide Kept, SettledBut, AddrCheck.Passes;
      if Consistent() {
        AddrCheck.SettledPasses(pl, nKey, Now());
      }
      code := AddrCheck.CheckAddrman(pl, nKey, mapInfo, mapAddr, vRandom, vvNew, vvTried, nNew, nTried, networkCounts,
        order);
    }

    // ---------- whole runs ----------

    /**
     One public operation; random draws and clock readings are free. Nobody leaves the
     tried table but by the resolution of collisions.
     */
    method Do(op: Op)
      requires Consistent()
      modifies this
      ensures Done(pl, old(OnDesk()), op, OnDesk())
      ensures !op.OpResolve? ==> old(triedIds) <= triedIds
      ensures Consistent() && IdsAge(old(mapInfo), old(nIdCount), mapInfo, nIdCount)
      ensures StillFilled(old(vvTried), vvTried)
    {
      hide Kept, SettledBut, Pending, Promoted, Dim, AllOffered, AllRuled, GoodDone, Attempted, Seen, Serving, MayMove;
      SameFilled(vvTried);
      match op {
        case OpAdd(vAddr, source, penalty) =>
          var ret, log := Add(vAddr, source, penalty);
          assert AllOffered(pl, old(Now()), vAddr, source, penalty, log, Now());
        case OpGood(addr, time) =>
          var moved := Good(addr, true, time);
        case OpAttempt(addr, fCountFailure, time) =>
          Attempt(addr, fCountFailure, time);
        case OpConnected(addr, time) =>
          Connected(addr, time);
        case OpSetServices(addr, nServices) =>
          SetServices(addr, nServices);
        case OpResolve =>
          ghost var log := ResolveCollisions();
          assert AllRuled(pl, old(Now()), old(triedCollisions), log, Now(), triedCollisions);
        case OpSelect(n) =>
          if n in triedCollisions {
            var found, tested := SelectTriedCollision(n);
          }
        case OpGetAddr(maxAddresses, maxPct, network, filtered, now) =>
          var addresses, ids := GetAddr(maxAddresses, maxPct, network, filtered, now);
      }
    }

    /**
     Every run of public operations from a consistent state stays consistent, never
     empties a tried slot that was filled, and never brings a forgotten id back. Each
     operation does what it is for, from where the one before left off.
     */
    method Run(ops: seq<Op>) returns (ghost trace: seq<Desk>)
      requires Consistent()
      modifies this
      ensures Traced(pl, old(OnDesk()), ops, trace, OnDesk())
      ensures Consistent() && IdsAge(old(mapInfo), old(nIdCount), mapInfo, nIdCount)
      ensures StillFilled(old(vvTried), vvTried)
    {
      hide Kept, SettledBut, Pending, Done;
      ConsistentIds();
      trace := [OnDesk()];
      assert ops[..0] == [];
      for i := 0 to |ops|
        invariant Consistent() && IdsAge(old(mapInfo), old(nIdCount), mapInfo, nIdCount)
        invariant StillFilled(old(vvTried), vvTried)
        invariant Traced(pl, old(OnDesk()), ops[..i], trace, OnDesk())
      {
        ghost var m, k, t := mapInfo, nIdCount, vvTried;
        ghost var d := OnDesk();
        Do(ops[i]);
        TracedOn(pl, old(OnDesk()), ops, i, trace, d, OnDesk());
        trace := trace + [OnDesk()];
        AgesThrough(old(mapInfo), old(nIdCount), old(vvTried), m, k, t, mapInfo, nIdCount, vvTried);
      }
    }
  }

  /** The manager between operations: its books, the pending collisions and when an address was last reached. */
  datatype Desk = Desk(k: Books, pending: set<int>, lastGood: int)

  predicate Knows(k: Books, addr: Service) {
    addr in k.byAddr && k.byAddr[addr] in k.m
  }

  /** The books after an attempt to reach an address. */
  function Attempted(k: Books, addr: Service, fCountFailure: bool, lastGood: int, time: int): Books {
    if !Knows(k, addr) then k
    else Touch(k, k.byAddr[addr], Tried(k.m[k.byAddr[addr]], fCountFailure, lastGood, time))
  }

  /** The books after an address was seen connected; its time is renewed every twenty minutes at most. */
  function Seen(k: Books, addr: Service, time: int): Books {
    if !Knows(k, addr) || time - k.m[k.byAddr[addr]].nTime <= 20 * 60 then k
    else Touch(k, k.byAddr[addr], k.m[k.byAddr[addr]].(nTime := time))
  }

  function Serving(k: Books, addr: Service, nServices: set<nat>): Books {
    if !Knows(k, addr) then k else Touch(k, k.byAddr[addr], k.m[k.byAddr[addr]].(nServices := nServices))
  }

  /** An address was reached: marked, and moved to the tried table or noted as a collision. */
  ghost predicate GoodDone(pl: Placement, d: Desk, addr: Service, time: int, d': Desk) {
    && d'.lastGood == time && Dim(d.k.newT, NEW_BUCKETS) && Dim(d.k.triedT, TRIED_BUCKETS)
    && if addr !in d.k.byAddr then d'.k == d.k && d'.pending == d.pending
       else
         var n := d.k.byAddr[addr];
         && n in d.k.m
         && var k1 := Touch(d.k, n, Reached(d.k.m[n], time));
            if MayMove(pl, d.k, n, true) then Promoted(pl, k1, d'.k, n) && d'.pending == d.pending
            else
              && d'.k == k1
              && d'.pending == d.pending + if !d.k.m[n].fInTried && |d.pending| < MAX_COLLISIONS then {n} else {}
  }

  /** What an operation is for. */
  ghost predicate Done(pl: Placement, d: Desk, op: Op, d': Desk) {
    match op
    case OpAdd(vAddr, source, penalty) =>
      && d'.pending == d.pending && d'.lastGood == d.lastGood
      && exists log :: AllOffered(pl, d.k, vAddr, source, penalty, log, d'.k)
    case OpGood(addr, time) => GoodDone(pl, d, addr, time, d')
    case OpAttempt(addr, fCountFailure, time) =>
      d' == d.(k := Attempted(d.k, addr, fCountFailure, d.lastGood, time))
    case OpConnected(addr, time) => d' == d.(k := Seen(d.k, addr, time))
    case OpSetServices(addr, nServices) => d' == d.(k := Serving(d.k, addr, nServices))
    case OpResolve => exists log :: AllRuled(pl, d.k, d.pending, log, d'.k, d'.pending)
    case OpSelect(n) => d' == d.(pending := if n in d.k.m then d.pending else d.pending - {n})
    case OpGetAddr(_, _, _, _, _) =>
      d' == d.(k := d.k.(m := d'.k.m, order := d'.k.order)) && Reordered(d.k.m, d'.k.m, {})
  }

  /** The record of an entry after a failed or unfinished attempt; a failure counts once after each success. */
  function Tried(i: AddrInfo, fCountFailure: bool, lastGood: int, time: int): AddrInfo {
    if fCountFailure && i.lastCountAttempt < lastGood
    then i.(lastTry := time, lastCountAttempt := time, nAttempts := i.nAttempts + 1)
    else i.(lastTry := time)
  }

  /** States from one to another, each reached from the one before by the next operation. */
  ghost predicate Traced(pl: Placement, d: Desk, ops: seq<Op>, trace: seq<Desk>, d': Desk) {
    && |trace| == |ops| + 1 && trace[0] == d && trace[|ops|] == d'
    && forall i :: 0 <= i < |ops| ==> Done(pl, trace[i], ops[i], trace[i + 1])
  }

  lemma TracedOn(pl: Placement, d0: Desk, ops: seq<Op>, i: nat, trace: seq<Desk>, d: Desk, d': Desk)
    requires i < |ops| && Traced(pl, d0, ops[..i], trace, d) && Done(pl, d, ops[i], d')
    ensures Traced(pl, d0, ops[..i + 1], trace + [d'], d')
  {
    hide Done;
    var more, now := trace + [d'], ops[..i + 1];
    forall j | 0 <= j < i + 1
      ensures Done(pl, more[j], now[j], more[j + 1])
    {
      if j < i {
        assert ops[..i][j] == now[j] && Done(pl, trace[j], ops[..i][j], trace[j + 1]);
      }
    }
  }

  /** A clock reading. */
  type Time = t: int | t > 0 witness 1

  datatype Op =
    | OpAdd(vAddr: seq<Heard>, source: NetAddr, penalty: int)
    | OpGood(addr: Service, time: Time)
    | OpAttempt(addr: Service, fCountFailure: bool, time: Time)
    | OpConnected(addr: Service, seen: int)
    | OpSetServices(addr: Service, nServices: set<nat>)
    | OpResolve
    | OpSelect(n: int)
    | OpGetAddr(maxAddresses: nat, maxPct: nat, network: Option<Network>, filtered: bool, now: int)

  function AddressOf(info: AddrInfo): Heard { Heard(info.addr, info.nTime, info.nServices) }

  lemma {:induction false} DistinctSize(ids: seq<int>)
    requires forall i, j :: 0 <= i < j < |ids| ==> ids[i] != ids[j]
    ensures |set n | n in ids| == |ids|
  {
    if ids == [] {
      assert (set n | n in ids) == {};
    } else {
      var last, rest := ids[|ids| - 1], ids[..|ids| - 1];
      DistinctSize(rest);
      assert last !in rest;
      assert (set n | n in ids) == (set n | n in rest) + {last};
    }
  }

  lemma EmptyLimbo(limbo: set<int>, n: int)
    requires limbo <= {n} && n !in limbo
    ensures limbo == {}
  {
  }
}
