/**
 The stack of coin views: a database at the bottom and any number of write-back
 caches above it. Each cache is proved to show, through every operation, the
 plain map from outpoint to coin that the same adds and removes would give.
 */
module CoinsCache {
  import opened Wrappers
  import opened CoinEntries

  type BlockHash = nat
  const NULL_HASH: BlockHash := 0

  /** The view at the bottom of a stack: what the database stores. */
  class CoinsViewDB {
    var coins: Coins
    var bestBlock: BlockHash

    constructor (coins: Coins, bestBlock: BlockHash)
      ensures this.coins == coins && this.bestBlock == bestBlock
    {
      this.coins, this.bestBlock := coins, bestBlock;
    }

    ghost function View(): Coins
      reads this
    {
      Unspent(coins)
    }

    /** A stored coin may be a spent one; FetchCoin allows for that. */
    method GetCoin(o: OutPoint) returns (found: bool, coin: Coin)
      ensures found <==> o in coins
      ensures found ==> coin == coins[o]
    {
      found := o in coins;
      coin := if found then coins[o] else EMPTY_COIN;
    }

    /** Gathers the batch, passing the cursor over every flagged entry. */
    method Collect(child: CoinsViewCache, willErase: bool) returns (batch: Coins)
      requires Linked(child.cacheCoins, child.flagged)
      requires child.cachedCoinsUsage + child.drift == TotalUsage(child.cacheCoins)
      modifies child`cacheCoins, child`flagged, child`cachedCoinsUsage
      ensures batch == StoreAll(coins, old(child.cacheCoins), old(child.flagged))
      ensures willErase ==> unchanged(child)
      ensures !willErase ==>
        child.cacheCoins == Synced(old(child.cacheCoins), old(child.flagged)) && child.flagged == []
      ensures !willErase ==> child.cachedCoinsUsage + child.drift == TotalUsage(child.cacheCoins)
    {
      hide *;
      ghost var c0 := child.cacheCoins;
      var todo := child.flagged;
      batch := coins;
      var i := 0;
      MergeNone(map[], c0, todo);
      StoreNone(coins, c0, todo);
      while i < |todo|
        invariant 0 <= i <= |todo| && forall o :: o in todo[..i] ==> o in c0
        invariant batch == StoreAll(coins, c0, todo[..i])
        invariant willErase ==> unchanged(child)
        invariant !willErase ==> child.cacheCoins == Synced(c0, todo[..i]) && child.flagged == todo[i..]
        invariant child.cachedCoinsUsage + child.drift == TotalUsage(child.cacheCoins)
      {
        var o := todo[i];
        SyncedStep(c0, todo, i);
        StoreStep(coins, c0, todo, i);
        var entry := child.cacheCoins[o];
        batch := StoreOne(batch, o, entry);
        child.NextAndMaybeErase(o, willErase);
        i := i + 1;
      }
      assert todo[..|todo|] == todo;
    }

    /**
     Writes the flagged entries of `child` in one batch. `committed` is the storage
     engine's answer; nothing is stored when it refuses the batch.
     */
    method BatchWrite(child: CoinsViewCache, willErase: bool, hash: BlockHash, committed: bool) returns (ok: bool)
      requires hash != NULL_HASH
      requires Linked(child.cacheCoins, child.flagged)
      requires child.cachedCoinsUsage + child.drift == TotalUsage(child.cacheCoins)
      modifies this, child`cacheCoins, child`flagged, child`cachedCoinsUsage
      ensures ok == committed
      ensures ok ==> coins == StoreAll(old(coins), old(child.cacheCoins), old(child.flagged)) && bestBlock == hash
      ensures !ok ==> unchanged(this)
      ensures willErase ==> unchanged(child)
      ensures !willErase ==>
        child.cacheCoins == Synced(old(child.cacheCoins), old(child.flagged)) && child.flagged == []
      ensures !willErase ==> child.cachedCoinsUsage + child.drift == TotalUsage(child.cacheCoins)
    {
      var batch := Collect(child, willErase);
      ok := committed;
      if ok {
        coins, bestBlock := batch, hash;
      }
    }
  }

  /** What a cache stands on. */
  datatype Backing = OnDisk(db: CoinsViewDB) | OnCache(view: CoinsViewCache)

  lemma SyncedNone(c: Entries)
    ensures Synced(c, []) == c
  {
  }

  /** One cursor step over a list without repeats. */
  lemma SyncedStep(c: Entries, l: seq<OutPoint>, i: nat)
    requires i < |l| && Linked(c, l)
    ensures l[i] in c && l[i] in Synced(c, l[..i]) && Synced(c, l[..i])[l[i]] == c[l[i]]
    ensures Synced(c, l[..i + 1]) == Set(Synced(c, l[..i]), l[i], SyncEntry(c[l[i]]))
    ensures Unlink(l[i..], l[i]) == l[i + 1..]
  {
    assert l[i] !in l[..i];
    assert l[..i + 1] == l[..i] + [l[i]];
    assert l[i..] == [l[i]] + l[i + 1..];
    UnlinkAbsent(l[i + 1..], l[i]);
  }

  lemma {:induction false} UnlinkAbsent(l: seq<OutPoint>, o: OutPoint)
    requires o !in l
    ensures Unlink(l, o) == l
  {
    if l != [] {
      UnlinkAbsent(l[1..], o);
    }
  }

  /** A write-back cache over another view. */
  class CoinsViewCache {
    const base: Backing
    var cacheCoins: Entries
    var flagged: seq<OutPoint>      // the linked list of entries with a flag set
    var cachedCoinsUsage: int
    var hashBlock: BlockHash
    ghost var drift: int            // what failed writes and refused additions have taken off the memory total
    ghost var shown: Coins          // the coins a caller can see through this cache
    ghost var levels: seq<Coins>    // what each view below shows, database first
    ghost const repr: set<object>   // this cache and everything below it

    /** This level taken alone, over a view that shows `below`. */
    ghost predicate Level(below: Coins)
      reads this
    {
      && CacheOk(cacheCoins, below)
      && Linked(cacheCoins, flagged)
      && cachedCoinsUsage + drift == TotalUsage(cacheCoins)
      && shown == ViewOf(cacheCoins, below)
    }

    /** The views below form an acyclic, valid stack, and `levels` records what each of them shows. */
    ghost predicate Stacked()
      reads this, repr
      decreases repr, 0
    {
      && this in repr
      && |levels| > 0
      && match base
         case OnDisk(db) =>
           db in repr && levels == [db.View()]
         case OnCache(v) =>
           v in repr && v.repr <= repr && this !in v.repr && v.Valid() && levels == v.levels + [v.shown]
    }

    /** The whole-run invariant of a stack: every level is right against the one below. */
    ghost predicate Valid()
      reads this, repr
      decreases repr, 1
    {
      this in repr && |levels| > 0 && Stacked() && Level(Below())
    }

    /** What the view below shows. */
    ghost function Below(): Coins
      requires |levels| > 0
      reads this
    {
      levels[|levels| - 1]
    }

    constructor (base: Backing)
      requires base.OnCache? ==> base.view.Valid()
      ensures Valid() && this.base == base && cacheCoins == map[] && hashBlock == NULL_HASH
      ensures shown == Below()
      ensures repr == {this} + match base case OnDisk(db) => {db} case OnCache(v) => v.repr
    {
      this.base := base;
      cacheCoins, flagged, cachedCoinsUsage, hashBlock := map[], [], 0, NULL_HASH;
      drift := 0;
      shown := match base case OnDisk(db) => db.View() case OnCache(v) => v.shown;
      levels := match base case OnDisk(db) => [db.View()] case OnCache(v) => v.levels + [v.shown];
      ghost var under: set<object> := match base case OnDisk(db) => {db} case OnCache(v) => v.repr;
      repr := {this} + under;
      new;
      EmptyShowsBelow(shown);
    }

    /** Whether the view below answers for `o`; a database may answer with a spent coin. */
    ghost predicate BaseAnswers(o: OutPoint)
      requires Stacked()
      reads this, repr
    {
      match base
      case OnDisk(db) => o in db.coins
      case OnCache(v) => o in v.shown
    }

    // ---------- one level ----------

    /**
     Steps the cursor past `o`. The successor is read before the entry goes, so
     erasing does not disturb the walk; a moved-from spent coin still reads as spent.
     */
    method NextAndMaybeErase(o: OutPoint, willErase: bool)
      requires o in cacheCoins
      requires cachedCoinsUsage + drift == TotalUsage(cacheCoins)
      modifies this`cacheCoins, this`flagged, this`cachedCoinsUsage
      ensures willErase ==> unchanged(this)
      ensures !willErase ==> cacheCoins == Set(old(cacheCoins), o, SyncEntry(old(cacheCoins[o])))
      ensures !willErase ==> flagged == Unlink(old(flagged), o)
      ensures cachedCoinsUsage + drift == TotalUsage(cacheCoins)
    {
      if !willErase {
        var entry := cacheCoins[o];
        TotalUsageAt(cacheCoins, o);
        if entry.coin.IsSpent() {
          cachedCoinsUsage := cachedCoinsUsage - entry.coin.DynamicMemoryUsage();
          cacheCoins := cacheCoins - {o};
        } else {
          TotalUsagePut(cacheCoins, o, Entry(entry.coin, false, false));
          cacheCoins := cacheCoins[o := Entry(entry.coin, false, false)];
        }
        flagged := Unlink(flagged, o);
      }
    }

    /** Stores an entry, keeping the list of flagged entries and the memory accounting in step. */
    method Store(o: OutPoint, e: Entry)
      requires Linked(cacheCoins, flagged) && cachedCoinsUsage + drift == TotalUsage(cacheCoins)
      requires e.Flagged() || o !in cacheCoins
      modifies this`cacheCoins, this`flagged, this`cachedCoinsUsage
      ensures cacheCoins == old(cacheCoins)[o := e]
      ensures Linked(cacheCoins, flagged) && cachedCoinsUsage + drift == TotalUsage(cacheCoins)
    {
      var had := o in cacheCoins;
      LinkOk(cacheCoins, flagged, o, e);
      TotalUsagePut(cacheCoins, o, e);
      if had {
        cachedCoinsUsage := cachedCoinsUsage - cacheCoins[o].coin.DynamicMemoryUsage();
      }
      if e.Flagged() {
        flagged := Link(flagged, o, had && cacheCoins[o].Flagged());
      }
      cacheCoins := cacheCoins[o := e];
      cachedCoinsUsage := cachedCoinsUsage + e.coin.DynamicMemoryUsage();
    }

    /** Erases an entry; its flags leave the list with it. */
    method Erase(o: OutPoint)
      requires o in cacheCoins
      requires Linked(cacheCoins, flagged) && cachedCoinsUsage + drift == TotalUsage(cacheCoins)
      modifies this`cacheCoins, this`flagged, this`cachedCoinsUsage
      ensures cacheCoins == old(cacheCoins) - {o}
      ensures Linked(cacheCoins, flagged) && cachedCoinsUsage + drift == TotalUsage(cacheCoins)
    {
      UnlinkOk(cacheCoins, flagged, o);
      TotalUsageAt(cacheCoins, o);
      cachedCoinsUsage := cachedCoinsUsage - cacheCoins[o].coin.DynamicMemoryUsage();
      flagged := Unlink(flagged, o);
      cacheCoins := cacheCoins - {o};
    }

    /** Replaces the entry at `o` by one that satisfies its rule. */
    method PutEntry(o: OutPoint, e: Entry, ghost below: Coins)
      requires Level(below) && EntryOk(e, Look(below, o))
      requires e.Flagged() || o !in cacheCoins
      modifies this`cacheCoins, this`flagged, this`cachedCoinsUsage, this`shown
      ensures Level(below) && cacheCoins == old(cacheCoins)[o := e]
      ensures shown == if e.coin.IsSpent() then old(shown) - {o} else old(shown)[o := e.coin]
    {
      PutOk(cacheCoins, below, o, e);
      Store(o, e);
      shown := ViewOf(cacheCoins, below);
    }

    /** Removes the entry at `o`, so that the view below shows through again. */
    method DropEntry(o: OutPoint, ghost below: Coins)
      requires Level(below) && o in cacheCoins
      modifies this`cacheCoins, this`flagged, this`cachedCoinsUsage, this`shown
      ensures Level(below) && cacheCoins == old(cacheCoins) - {o}
      ensures shown == if o in below then old(shown)[o := below[o]] else old(shown) - {o}
    {
      DropOk(cacheCoins, below, o);
      Erase(o);
      shown := ViewOf(cacheCoins, below);
    }

    /** Takes in a coin just read from the view below; an empty one counts as none, so its entry is fresh. */
    method Absorb(o: OutPoint, coin: Coin, ghost below: Coins)
      requires Level(below) && o !in cacheCoins
      requires Look(below, o) == if coin.IsSpent() then None else Some(coin)
      modifies this`cacheCoins, this`flagged, this`cachedCoinsUsage, this`shown
      ensures Level(below) && shown == old(shown)
      ensures o in cacheCoins && cacheCoins - {o} == old(cacheCoins)
    {
      ViewOfAt(cacheCoins, below, o);
      ghost var c := cacheCoins;
      PutEntry(o, Entry(coin, false, coin.IsSpent()), below);
      assert c[o := cacheCoins[o]] - {o} == c;
    }

    // ---------- reading ----------

    /** Asks the view below, which may fill its own caches but shows the same afterwards. */
    method ReadBase(o: OutPoint) returns (found: bool, coin: Coin)
      requires Valid()
      modifies repr - {this}
      ensures Valid() && unchanged(this)
      ensures Look(Below(), o) == if found && !coin.IsSpent() then Some(coin) else None
      ensures found <==> old(BaseAnswers(o))
      decreases repr, 0
    {
      match base {
        case OnDisk(db) =>
          found, coin := db.GetCoin(o);
        case OnCache(v) =>
          found, coin := v.GetCoin(o);
      }
    }

    /** Brings an entry into this cache, and into the caches below, without changing what any of them shows. */
    method FetchCoin(o: OutPoint) returns (found: bool)
      requires Valid()
      modifies repr
      ensures Valid() && levels == old(levels) && shown == old(shown)
      ensures found <==> o in cacheCoins
      ensures found <==> o in old(cacheCoins) || old(BaseAnswers(o))
      ensures o in old(cacheCoins) || !found ==> cacheCoins == old(cacheCoins)
      ensures o !in old(cacheCoins) ==> cacheCoins - {o} == old(cacheCoins)
      ensures hashBlock == old(hashBlock)
      decreases repr, 1
    {
      if o in cacheCoins {
        return true;
      }
      var coin;
      found, coin := ReadBase(o);
      ViewOfAt(cacheCoins, Below(), o);
      if found {
        Absorb(o, coin, Below());
      }
    }

    method GetCoin(o: OutPoint) returns (found: bool, coin: Coin)
      requires Valid()
      modifies repr
      ensures Valid() && levels == old(levels) && shown == old(shown)
      ensures Look(shown, o) == if found then Some(coin) else None
      ensures found ==> !coin.IsSpent()
      ensures hashBlock == old(hashBlock)
      decreases repr, 2
    {
      found := FetchCoin(o);
      ViewOfAt(cacheCoins, Below(), o);
      coin := EMPTY_COIN;
      if found {
        coin := cacheCoins[o].coin;
        found := !coin.IsSpent();
      }
    }

    method HaveCoin(o: OutPoint) returns (have: bool)
      requires Valid()
      modifies repr
      ensures Valid() && levels == old(levels) && shown == old(shown)
      ensures have <==> o in shown
      ensures hashBlock == old(hashBlock)
    {
      have := FetchCoin(o);
      ViewOfAt(cacheCoins, Below(), o);
      have := have && !cacheCoins[o].coin.IsSpent();
    }

    /** True exactly when the transaction is a coinbase or spends only visible coins; nothing visible changes. */
    method HaveInputs(prevouts: seq<OutPoint>, isCoinBase: bool) returns (have: bool)
      requires Valid()
      modifies repr
      ensures Valid() && levels == old(levels) && shown == old(shown)
      ensures have <==> isCoinBase || forall i :: 0 <= i < |prevouts| ==> prevouts[i] in shown
    {
      hide *;
      if !isCoinBase {
        var i := 0;
        while i < |prevouts|
          invariant 0 <= i <= |prevouts|
          invariant Valid() && levels == old(levels) && shown == old(shown)
          invariant forall j :: 0 <= j < i ==> prevouts[j] in shown
        {
          var h := HaveCoin(prevouts[i]);
          if !h {
            return false;
          }
          i := i + 1;
        }
      }
      return true;
    }

    // ---------- changing ----------

    method AddToLevel(o: OutPoint, coin: Coin, possibleOverwrite: bool, ghost below: Coins) returns (threw: bool)
      requires Level(below) && !coin.IsSpent()
      requires coin.IsUnspendable() || possibleOverwrite || o !in shown || o in cacheCoins
      modifies this`cacheCoins, this`flagged, this`cachedCoinsUsage, this`shown, this`drift
      ensures threw <==> !coin.IsUnspendable() && !possibleOverwrite && o in old(shown)
      ensures threw ==> shown == old(shown) && cacheCoins == old(cacheCoins) && flagged == old(flagged)
      ensures Level(below) && (!threw ==> drift == old(drift))
      ensures !threw ==> shown == if coin.IsUnspendable() then old(shown) else old(shown)[o := coin]
    {
      threw := false;
      if coin.IsUnspendable() {
        return;
      }
      ViewOfAt(cacheCoins, below, o);
      var inserted := o !in cacheCoins;
      var entry := if inserted then Entry(EMPTY_COIN, false, false) else cacheCoins[o];
      var marksFresh := false;
      if !possibleOverwrite {
        if !entry.coin.IsSpent() {
          cachedCoinsUsage := cachedCoinsUsage - entry.coin.DynamicMemoryUsage();
          drift := drift + entry.coin.DynamicMemoryUsage();
          return true;
        }
        // a spent DIRTY entry has not reached the parent yet, so the parent may still show the coin
        marksFresh := !entry.isDirty;
      }
      AddSoundIff(Find(cacheCoins, o), coin, possibleOverwrite, Look(below, o));
      PutEntry(o, Entry(coin, true, marksFresh || entry.isFresh), below);
    }

    /**
     Adds a coin. The caller must have announced an overwrite unless no coin is
     visible; a false claim is noticed, and thrown on, where this cache holds the entry.
     */
    method AddCoin(o: OutPoint, coin: Coin, possibleOverwrite: bool) returns (threw: bool)
      requires Valid() && !coin.IsSpent()
      requires coin.IsUnspendable() || possibleOverwrite || o !in shown || o in cacheCoins
      modifies this`cacheCoins, this`flagged, this`cachedCoinsUsage, this`shown, this`drift
      ensures threw <==> !coin.IsUnspendable() && !possibleOverwrite && o in old(shown)
      ensures threw ==> shown == old(shown) && cacheCoins == old(cacheCoins) && flagged == old(flagged)
      ensures Valid() && (!threw ==> drift == old(drift))
      ensures !threw ==> shown == if coin.IsUnspendable() then old(shown) else old(shown)[o := coin]
    {
      threw := AddToLevel(o, coin, possibleOverwrite, Below());
    }

    method SpendInLevel(o: OutPoint, ghost below: Coins) returns (moveout: Coin)
      requires Level(below) && o in cacheCoins
      modifies this`cacheCoins, this`flagged, this`cachedCoinsUsage, this`shown
      ensures Level(below) && shown == old(shown) - {o}
      ensures Look(old(shown), o) == if moveout.IsSpent() then None else Some(moveout)
    {
      ViewOfAt(cacheCoins, below, o);
      moveout := cacheCoins[o].coin;
      SpendSound(cacheCoins[o], Look(below, o));
      if cacheCoins[o].isFresh {
        DropEntry(o, below);
      } else {
        PutEntry(o, Entry(EMPTY_COIN, true, false), below);
      }
    }

    /**
     Spends a coin: afterwards it is not visible, and the coin handed out is the one
     that was. The answer is not "was it unspent": it is also true for an entry that
     is already spent, and then the coin handed out is an empty one.
     */
    method SpendCoin(o: OutPoint) returns (spent: bool, moveout: Coin)
      requires Valid()
      modifies repr
      ensures Valid() && levels == old(levels) && shown == old(shown) - {o}
      ensures spent <==> o in old(cacheCoins) || old(BaseAnswers(o))
      ensures Look(old(shown), o) == if moveout.IsSpent() then None else Some(moveout)
      ensures hashBlock == old(hashBlock)
    {
      moveout := EMPTY_COIN;
      spent := FetchCoin(o);
      ViewOfAt(cacheCoins, Below(), o);
      if spent {
        moveout := SpendInLevel(o, Below());
      }
    }

    /** Forgets an entry that carries no flag; nothing visible changes. */
    method Uncache(o: OutPoint)
      requires Valid()
      modifies this`cacheCoins, this`flagged, this`cachedCoinsUsage, this`shown
      ensures Valid() && shown == old(shown)
      ensures o in cacheCoins <==> o in old(cacheCoins) && old(cacheCoins)[o].Flagged()
      ensures cacheCoins - {o} == old(cacheCoins) - {o}
    {
      if o in cacheCoins && !cacheCoins[o].isDirty && !cacheCoins[o].isFresh {
        ViewOfAt(cacheCoins, Below(), o);
        UnflaggedAgrees(cacheCoins[o], Look(Below(), o));
        DropEntry(o, Below());
      }
    }

    // ---------- handing changes to the view below ----------

    /** Merges one entry of a child into this level, branch by branch. */
    method MergeIn(o: OutPoint, it: Entry)
      requires Linked(cacheCoins, flagged) && cachedCoinsUsage + drift == TotalUsage(cacheCoins)
      requires MergeEntry(Find(cacheCoins, o), it).Merge?
      modifies this`cacheCoins, this`flagged, this`cachedCoinsUsage
      ensures Linked(cacheCoins, flagged) && cachedCoinsUsage + drift == TotalUsage(cacheCoins)
      ensures cacheCoins == Set(old(cacheCoins), o, MergeEntry(Find(old(cacheCoins), o), it).entry)
    {
      if !it.isDirty {
        return;
      }
      if o !in cacheCoins {
        if !(it.isFresh && it.coin.IsSpent()) {
          Store(o, Entry(it.coin, true, it.isFresh));
        }
      } else {
        var us := cacheCoins[o];
        if it.isFresh && !us.coin.IsSpent() {
          assert false;  // "FRESH flag misapplied to coin that exists in parent cache"
        }
        if us.isFresh && it.coin.IsSpent() {
          Erase(o);
        } else {
          Store(o, Entry(it.coin, true, us.isFresh));
        }
      }
    }

    /** The walk over a child's flagged entries, each merged into this level and passed by the cursor. */
    method MergeChild(child: CoinsViewCache, willErase: bool, ghost below: Coins)
      requires child != this
      requires Linked(cacheCoins, flagged) && cachedCoinsUsage + drift == TotalUsage(cacheCoins)
      requires Linked(child.cacheCoins, child.flagged)
      requires child.cachedCoinsUsage + child.drift == TotalUsage(child.cacheCoins)
      requires CacheOk(cacheCoins, below) && CacheOk(child.cacheCoins, ViewOf(cacheCoins, below))
      modifies this`cacheCoins, this`flagged, this`cachedCoinsUsage
      modifies child`cacheCoins, child`flagged, child`cachedCoinsUsage
      ensures MergeAll(old(cacheCoins), old(child.cacheCoins), old(child.flagged)) == Some(cacheCoins)
      ensures Linked(cacheCoins, flagged) && cachedCoinsUsage + drift == TotalUsage(cacheCoins)
      ensures willErase ==> unchanged(child)
      ensures !willErase ==>
        child.cacheCoins == Synced(old(child.cacheCoins), old(child.flagged)) && child.flagged == []
      ensures !willErase ==> child.cachedCoinsUsage + child.drift == TotalUsage(child.cacheCoins)
    {
      hide *;
      ghost var c0, us0 := child.cacheCoins, cacheCoins;
      var todo := child.flagged;
      var i := 0;
      MergeNone(us0, c0, todo);
      while i < |todo|
        invariant 0 <= i <= |todo| && forall o :: o in todo[..i] ==> o in c0
        invariant MergeAll(us0, c0, todo[..i]) == Some(cacheCoins)
        invariant Linked(cacheCoins, flagged) && cachedCoinsUsage + drift == TotalUsage(cacheCoins)
        invariant willErase ==> unchanged(child)
        invariant !willErase ==> child.cacheCoins == Synced(c0, todo[..i]) && child.flagged == todo[i..]
        invariant child.cachedCoinsUsage + child.drift == TotalUsage(child.cacheCoins)
      {
        var o := todo[i];
        SyncedStep(c0, todo, i);
        MergeStep(us0, c0, todo, i, below);
        MergeIn(o, child.cacheCoins[o]);
        child.NextAndMaybeErase(o, willErase);
        i := i + 1;
      }
      assert todo[..|todo|] == todo;
    }

    method WriteLevel(child: CoinsViewCache, willErase: bool, hash: BlockHash, ghost below: Coins)
      requires child != this && Level(below)
      requires child.Level(shown)
      modifies this`cacheCoins, this`flagged, this`cachedCoinsUsage, this`shown, this`hashBlock
      modifies child`cacheCoins, child`flagged, child`cachedCoinsUsage
      ensures Level(below) && hashBlock == hash && shown == child.shown
      ensures willErase ==> unchanged(child)
      ensures !willErase ==>
        child.cacheCoins == Synced(old(child.cacheCoins), old(child.flagged)) && child.flagged == []
      ensures !willErase ==> child.cachedCoinsUsage + child.drift == TotalUsage(child.cacheCoins)
    {
      MergeAllSound(cacheCoins, child.cacheCoins, child.flagged, below);
      MergeChild(child, willErase, below);
      hashBlock := hash;
      shown := ViewOf(cacheCoins, below);
    }

    /** Takes over the changes of a child: afterwards this cache shows what the child showed. */
    method BatchWrite(child: CoinsViewCache, willErase: bool, hash: BlockHash)
      requires Valid() && child !in repr && child.Level(shown)
      modifies this`cacheCoins, this`flagged, this`cachedCoinsUsage, this`shown, this`hashBlock
      modifies child`cacheCoins, child`flagged, child`cachedCoinsUsage
      ensures Valid() && hashBlock == hash && shown == child.shown
      ensures willErase ==> unchanged(child)
      ensures !willErase ==>
        child.cacheCoins == Synced(old(child.cacheCoins), old(child.flagged)) && child.flagged == []
      ensures !willErase ==> child.cachedCoinsUsage + child.drift == TotalUsage(child.cacheCoins)
    {
      WriteLevel(child, willErase, hash, Below());
    }

    /** Hands the flagged entries to whatever is below. */
    method WriteToBase(willErase: bool, committed: bool) returns (ok: bool)
      requires Valid() && (base.OnDisk? ==> hashBlock != NULL_HASH)
      modifies repr
      ensures ok == (base.OnCache? || committed)
      ensures unchanged(this`shown) && unchanged(this`hashBlock)
      ensures Stacked() && levels == if ok then old(levels)[|old(levels)| - 1 := shown] else old(levels)
      ensures match base
              case OnDisk(db) => ok ==> db.bestBlock == hashBlock
              case OnCache(v) => v.hashBlock == hashBlock
      ensures willErase ==> unchanged(this`cacheCoins) && unchanged(this`flagged) && unchanged(this`cachedCoinsUsage)
      ensures !willErase ==> cacheCoins == Synced(old(cacheCoins), old(flagged)) && flagged == []
      ensures !willErase ==> cachedCoinsUsage + drift == TotalUsage(cacheCoins)
    {
      hide CacheOk, Linked, ViewOf, TotalUsage, Synced;
      match base {
        case OnDisk(db) =>
          StoreAllSound(db.coins, cacheCoins, flagged);
          ok := db.BatchWrite(this, willErase, hashBlock, committed);
        case OnCache(v) =>
          v.BatchWrite(this, willErase, hashBlock);
          ok := true;
      }
      if ok {
        levels := levels[|levels| - 1 := shown];
      }
    }

    /** Empties this cache over a view that shows the same. */
    method Empty()
      modifies this`cacheCoins, this`flagged
      ensures cacheCoins == map[] && flagged == [] && CacheOk(cacheCoins, shown) && Linked(cacheCoins, flagged)
      ensures shown == ViewOf(cacheCoins, shown)
    {
      cacheCoins, flagged := map[], [];
      EmptyShowsBelow(shown);
    }

    /**
     Hands every change to the view below and empties this cache; if that fails, all views stay and
     only the memory total is lost.
     */
    method Flush(committed: bool) returns (ok: bool)
      requires Valid() && (base.OnDisk? ==> hashBlock != NULL_HASH)
      modifies repr
      ensures ok == (base.OnCache? || committed)
      ensures Valid() && shown == old(shown)
      ensures ok ==> cacheCoins == map[] && cachedCoinsUsage == drift == 0
      ensures !ok ==> cacheCoins == old(cacheCoins) && flagged == old(flagged)
      ensures levels == if ok then old(levels)[|old(levels)| - 1 := old(shown)] else old(levels)
      ensures base.OnCache? ==> base.view.hashBlock == old(hashBlock)
    {
      hide CacheOk, Linked, ViewOf, TotalUsage;
      ok := WriteToBase(true, committed);
      if ok {
        Empty();
      }
      cachedCoinsUsage := 0;
      drift := TotalUsage(cacheCoins);
      NoUsage();
    }

    /**
     Hands every change to the view below and keeps the unspent entries, now without flags. The flags go even
     if the database refuses the batch: the level then stays right exactly when it had nothing to hand down.
     */
    method Sync(committed: bool) returns (ok: bool)
      requires Valid() && (base.OnDisk? ==> hashBlock != NULL_HASH)
      modifies repr
      ensures ok == (base.OnCache? || committed)
      ensures levels == if ok then old(levels)[|old(levels)| - 1 := old(shown)] else old(levels)
      ensures shown == old(shown)
      ensures Valid() <==> ok || old(shown == Below())
      ensures cacheCoins == Synced(old(cacheCoins), old(flagged)) && flagged == []
      ensures base.OnCache? ==> base.view.hashBlock == old(hashBlock)
    {
      hide CacheOk, Linked, ViewOf, TotalUsage, Synced;
      SyncedSound(cacheCoins, flagged, Below());
      RefusedSync(cacheCoins, flagged, Below());
      ok := WriteToBase(false, committed);
      if ok {
        if flagged != [] {
          assert false;  // "Not all unspent flagged entries were cleared"
        }
      }
    }

    /** The runtime self-check answers exactly whether the level is sane; a valid level always is. */
    method SanityCheck() returns (passed: bool)
      ensures passed <==> Sane(cacheCoins, flagged, cachedCoinsUsage)
    {
      var legal, usage, count := Recount(cacheCoins);
      var linked := AllFlagged(cacheCoins, flagged);
      passed := legal && linked && |flagged| == count && usage == cachedCoinsUsage;
    }

    method SetBestBlock(hash: BlockHash)
      modifies this`hashBlock
      ensures hashBlock == hash
    {
      hashBlock := hash;
    }
  }

  /** The first walk of the self-check: flags, memory and the number of flagged entries. */
  method Recount(c: Entries) returns (legal: bool, usage: nat, count: nat)
    ensures legal <==> forall o :: o in c ==> LegalFlags(c[o])
    ensures legal ==> usage == TotalUsage(c) && count == |FlaggedKeys(c)|
  {
    usage, count := 0, 0;
    var rest := c;
    while rest != map[]
      invariant rest.Keys <= c.Keys && rest == map o | o in rest.Keys :: c[o]
      invariant forall o :: o in c && o !in rest ==> LegalFlags(c[o])
      invariant usage + TotalUsage(rest) == TotalUsage(c)
      invariant count + |FlaggedKeys(rest)| == |FlaggedKeys(c)|
      decreases |rest|
    {
      var o :| o in rest;
      var entry := rest[o];
      var attr := (if entry.isDirty then 1 else 0) + (if entry.isFresh then 2 else 0)
                  + (if entry.coin.IsSpent() then 4 else 0);
      if attr == 2 || attr == 4 || attr == 7 {
        assert !LegalFlags(c[o]);
        return false, 0, 0;
      }
      TotalUsageAt(rest, o);
      FlaggedKeysAt(rest, o);
      usage := usage + entry.coin.DynamicMemoryUsage();
      if entry.Flagged() {
        count := count + 1;
      }
      rest := rest - {o};
    }
    legal := true;
  }

  lemma FlaggedKeysAt(c: Entries, o: OutPoint)
    requires o in c
    ensures |FlaggedKeys(c)| == |FlaggedKeys(c - {o})| + if c[o].Flagged() then 1 else 0
  {
    assert FlaggedKeys(c) == FlaggedKeys(c - {o}) + if c[o].Flagged() then {o} else {};
  }

  /** The second walk of the self-check, along the linked list. */
  method AllFlagged(c: Entries, l: seq<OutPoint>) returns (ok: bool)
    ensures ok <==> forall i :: 0 <= i < |l| ==> l[i] in c && c[l[i]].Flagged()
  {
    for k := 0 to |l|
      invariant forall i :: 0 <= i < k ==> l[i] in c && c[l[i]].Flagged()
    {
      if l[k] !in c || !c[l[k]].Flagged() {
        return false;
      }
    }
    return true;
  }

  lemma MergeNone(us: Entries, c: Entries, l: seq<OutPoint>)
    requires Linked(c, l)
    ensures forall o :: o in l[..0] ==> o in c
    ensures MergeAll(us, c, l[..0]) == Some(us) && Synced(c, l[..0]) == c && l[0..] == l
  {
    SyncedNone(c);
  }

  lemma StoreNone(stored: Coins, c: Entries, l: seq<OutPoint>)
    requires Linked(c, l)
    ensures forall o :: o in l[..0] ==> o in c
    ensures StoreAll(stored, c, l[..0]) == stored
  {
  }

  lemma StoreStep(stored: Coins, c: Entries, l: seq<OutPoint>, i: nat)
    requires i < |l| && Linked(c, l)
    requires forall o :: o in l[..i] ==> o in c
    ensures forall o :: o in l[..i + 1] ==> o in c
    ensures StoreAll(stored, c, l[..i + 1]) == StoreOne(StoreAll(stored, c, l[..i]), l[i], c[l[i]])
  {
    assert l[..i + 1][..i] == l[..i] && l[..i + 1][i] == l[i];
    forall o | o in l[..i + 1] ensures o in c {
      assert o in l;
    }
  }

  /** One step of the merge over a list without repeats meets no misapplied FRESH. */
  lemma MergeStep(us: Entries, c: Entries, l: seq<OutPoint>, i: nat, grand: Coins)
    requires i < |l| && Linked(c, l)
    requires CacheOk(us, grand) && CacheOk(c, ViewOf(us, grand))
    requires (forall o :: o in l[..i] ==> o in c) && MergeAll(us, c, l[..i]).Some?
    ensures forall o :: o in l[..i + 1] ==> o in c
    ensures var m := MergeAll(us, c, l[..i]).value;
            && MergeEntry(Find(m, l[i]), c[l[i]]).Merge?
            && MergeAll(us, c, l[..i + 1]) == Some(Set(m, l[i], MergeEntry(Find(m, l[i]), c[l[i]]).entry))
  {
    assert l[..i + 1][..i] == l[..i] && l[..i + 1][i] == l[i];
    forall o | o in l[..i + 1] ensures o in c {
      assert o in l;
    }
    MergeAllAt(us, c, l[..i + 1], grand);
  }

  lemma NoUsage()
    ensures TotalUsage(map[]) == 0
  {
  }

  lemma EmptyShowsBelow(below: Coins)
    ensures ViewOf(map[], below) == below
  {
    forall o ensures Look(below, o) == Seen(Find(map[], o), Look(below, o)) {
    }
    SameView(map[], below, below);
  }

  /** One output of a transaction. */
  datatype TxOut = TxOut(nValue: int, script: seq<nat>)

  function CoinOf(out: TxOut, nHeight: nat, fCoinBase: bool): Coin {
    Coin(out.nValue, out.script, fCoinBase, nHeight)
  }

  /** The view after the first `n` outputs: spendable ones are in, unspendable ones change nothing. */
  ghost function WithOutputs(view: Coins, txid: nat, outs: seq<TxOut>, n: nat, nHeight: nat, fCoinBase: bool): Coins
    requires n <= |outs|
  {
    if n == 0 then view
    else
      var before := WithOutputs(view, txid, outs, n - 1, nHeight, fCoinBase);
      var coin := CoinOf(outs[n - 1], nHeight, fCoinBase);
      if coin.IsUnspendable() then before else before[OutPoint(txid, n - 1) := coin]
  }

  lemma {:induction false} OutputsElsewhere(
    view: Coins, txid: nat, outs: seq<TxOut>, n: nat, h: nat, cb: bool, o: OutPoint)
    requires n <= |outs| && (o.hash != txid || o.n >= n)
    ensures Look(WithOutputs(view, txid, outs, n, h, cb), o) == Look(view, o)
  {
    if n > 0 {
      OutputsElsewhere(view, txid, outs, n - 1, h, cb, o);
    }
  }

  /** Nobody can ever spend the output. */
  predicate Unspendable(out: TxOut) {
    (|out.script| > 0 && out.script[0] == OP_RETURN) || |out.script| > MAX_SCRIPT_SIZE
  }

  /** A coin holds an output, its height and whether a coinbase made it. */
  ghost predicate Holds(view: Coins, o: OutPoint, out: TxOut, nHeight: nat, fCoinBase: bool) {
    && o in view && view[o].nValue == out.nValue && view[o].script == out.script
    && view[o].nHeight == nHeight && view[o].fCoinBase == fCoinBase
  }

  lemma {:induction false} OutputAt(view: Coins, txid: nat, outs: seq<TxOut>, n: nat, h: nat, cb: bool, i: nat)
    requires i < n <= |outs|
    ensures var o, after := OutPoint(txid, i), WithOutputs(view, txid, outs, n, h, cb);
      if Unspendable(outs[i]) then Look(after, o) == Look(view, o) else Holds(after, o, outs[i], h, cb)
  {
    if i < n - 1 {
      OutputAt(view, txid, outs, n - 1, h, cb, i);
    } else {
      OutputsElsewhere(view, txid, outs, n - 1, h, cb, OutPoint(txid, i));
    }
  }

  /**
   Adds all outputs of a transaction. Unless the caller asks for a look-up, only a
   coinbase may meet visible coins with its own outpoints.
   */
  method AddCoins(
    cache: CoinsViewCache, txid: nat, outs: seq<TxOut>, fCoinBase: bool, nHeight: nat, checkForOverwrite: bool)
    requires cache.Valid()
    requires forall i :: 0 <= i < |outs| ==> outs[i].nValue != -1
    requires checkForOverwrite || fCoinBase || forall i :: 0 <= i < |outs| ==> OutPoint(txid, i) !in cache.shown
    modifies cache.repr
    ensures cache.Valid() && cache.levels == old(cache.levels)
    ensures cache.shown == WithOutputs(old(cache.shown), txid, outs, |outs|, nHeight, fCoinBase)
    ensures forall i :: 0 <= i < |outs| ==>
      if Unspendable(outs[i]) then Look(cache.shown, OutPoint(txid, i)) == old(Look(cache.shown, OutPoint(txid, i)))
      else Holds(cache.shown, OutPoint(txid, i), outs[i], nHeight, fCoinBase)
    ensures forall o: OutPoint :: o.hash != txid || o.n >= |outs| ==> Look(cache.shown, o) == old(Look(cache.shown, o))
  {
    hide CoinsViewCache.Valid, CoinsViewCache.Level, CoinsViewCache.Stacked;
    var i := 0;
    while i < |outs|
      invariant 0 <= i <= |outs|
      invariant cache.Valid() && cache.levels == old(cache.levels)
      invariant cache.shown == WithOutputs(old(cache.shown), txid, outs, i, nHeight, fCoinBase)
    {
      var o := OutPoint(txid, i);
      OutputsElsewhere(old(cache.shown), txid, outs, i, nHeight, fCoinBase, o);
      AddOutput(cache, o, CoinOf(outs[i], nHeight, fCoinBase), fCoinBase, checkForOverwrite);
      i := i + 1;
    }
    AllOutputs(old(cache.shown), txid, outs, nHeight, fCoinBase);
  }

  lemma AllOutputs(view: Coins, txid: nat, outs: seq<TxOut>, nHeight: nat, fCoinBase: bool)
    ensures var after := WithOutputs(view, txid, outs, |outs|, nHeight, fCoinBase);
      && (forall i :: 0 <= i < |outs| ==>
            if Unspendable(outs[i]) then Look(after, OutPoint(txid, i)) == Look(view, OutPoint(txid, i))
            else Holds(after, OutPoint(txid, i), outs[i], nHeight, fCoinBase))
      && forall o: OutPoint :: o.hash != txid || o.n >= |outs| ==> Look(after, o) == Look(view, o)
  {
    hide WithOutputs, Holds, Look;
    var after := WithOutputs(view, txid, outs, |outs|, nHeight, fCoinBase);
    forall i | 0 <= i < |outs|
      ensures if Unspendable(outs[i]) then Look(after, OutPoint(txid, i)) == Look(view, OutPoint(txid, i))
        else Holds(after, OutPoint(txid, i), outs[i], nHeight, fCoinBase)
    {
      OutputAt(view, txid, outs, |outs|, nHeight, fCoinBase, i);
    }
    forall o: OutPoint | o.hash != txid || o.n >= |outs|
      ensures Look(after, o) == Look(view, o)
    {
      OutputsElsewhere(view, txid, outs, |outs|, nHeight, fCoinBase, o);
    }
  }

  method AddOutput(cache: CoinsViewCache, o: OutPoint, coin: Coin, fCoinBase: bool, checkForOverwrite: bool)
    requires cache.Valid() && !coin.IsSpent() && (checkForOverwrite || fCoinBase || o !in cache.shown)
    modifies cache.repr
    ensures cache.Valid() && cache.levels == old(cache.levels)
    ensures cache.shown == if coin.IsUnspendable() then old(cache.shown) else old(cache.shown)[o := coin]
  {
    assert cache in cache.repr;
    hide CoinsViewCache.Valid, CoinsViewCache.Level, CoinsViewCache.Stacked;
    var overwrite := fCoinBase;
    if checkForOverwrite {
      overwrite := cache.HaveCoin(o);
    }
    var threw := cache.AddCoin(o, coin, overwrite);
  }
}
