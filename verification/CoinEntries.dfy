/**
 The values one level of the coins cache is made of: coins, cache entries with
 their DIRTY and FRESH flags, the list of flagged entries, and the rules that a
 level must satisfy against the view below it.

 Everything here is about one level at a time; CoinsCache.dfy stacks the levels.
 */
module CoinEntries {
  import opened Wrappers

  /** A transaction output: hash of the transaction and index of the output. */
  datatype OutPoint = OutPoint(hash: nat, n: nat)

  datatype Coin = Coin(nValue: int, script: seq<nat>, fCoinBase: bool, nHeight: nat) {
    predicate IsSpent() { nValue == -1 }

    /** Scripts that can never be spent: OP_RETURN first, or longer than MAX_SCRIPT_SIZE. */
    predicate IsUnspendable() { (|script| > 0 && script[0] == OP_RETURN) || |script| > MAX_SCRIPT_SIZE }

    /** Heap bytes held by the coin: scripts up to the inline capacity hold none. */
    function DynamicMemoryUsage(): nat { if |script| <= SCRIPT_INLINE_SIZE then 0 else |script| }
  }

  const OP_RETURN := 0x6a
  const MAX_SCRIPT_SIZE := 10000
  const SCRIPT_INLINE_SIZE := 28

  /** What Coin.Clear leaves behind. */
  const EMPTY_COIN := Coin(-1, [], false, 0)

  datatype Entry = Entry(coin: Coin, isDirty: bool, isFresh: bool) {
    predicate Flagged() { isDirty || isFresh }
  }

  type Coins = map<OutPoint, Coin>
  type Entries = map<OutPoint, Entry>

  function Look(coins: Coins, o: OutPoint): Option<Coin> {
    if o in coins then Some(coins[o]) else None
  }

  function Find(c: Entries, o: OutPoint): Option<Entry> {
    if o in c then Some(c[o]) else None
  }

  /** The unspent coins among those stored. */
  function Unspent(stored: Coins): Coins {
    map o | o in stored && !stored[o].IsSpent() :: stored[o]
  }

  /** What one key shows when the level holds `e` and the view below shows `below`. */
  function Seen(e: Option<Entry>, below: Option<Coin>): Option<Coin> {
    match e
    case None => below
    case Some(entry) => if entry.coin.IsSpent() then None else Some(entry.coin)
  }

  /** The visible coins of a level `c` on top of a view `below`. */
  function ViewOf(c: Entries, below: Coins): Coins {
    map o | o in c.Keys + below.Keys && Seen(Find(c, o), Look(below, o)).Some?
      :: Seen(Find(c, o), Look(below, o)).value
  }

  lemma ViewOfAt(c: Entries, below: Coins, o: OutPoint)
    ensures Look(ViewOf(c, below), o) == Seen(Find(c, o), Look(below, o))
  {
  }

  lemma SameView(c: Entries, below: Coins, v: Coins)
    requires forall o :: Look(v, o) == Seen(Find(c, o), Look(below, o))
    ensures ViewOf(c, below) == v
  {
    var w := ViewOf(c, below);
    forall o ensures (o in w <==> o in v) && (o in w ==> w[o] == v[o]) {
      ViewOfAt(c, below, o);
      assert Look(v, o) == Look(w, o);
    }
  }

  /** The five flag combinations that may occur. */
  predicate LegalFlags(e: Entry) {
    || (!e.coin.IsSpent() && e.isDirty)
    || (!e.coin.IsSpent() && !e.isDirty && !e.isFresh)
    || (e.coin.IsSpent() && e.isFresh && !e.isDirty)
    || (e.coin.IsSpent() && !e.isFresh && e.isDirty)
  }

  /** The rule that ties an entry to what the view below shows for its key. */
  predicate EntryOk(e: Entry, below: Option<Coin>) {
    && LegalFlags(e)
    && (e.isFresh ==> below.None?)
    && (!e.isDirty && !e.coin.IsSpent() ==> below == Some(e.coin))
    && (e.isDirty && e.coin.IsSpent() ==> e.coin == EMPTY_COIN)
  }

  ghost predicate CacheOk(c: Entries, below: Coins) {
    forall o :: o in c ==> EntryOk(c[o], Look(below, o))
  }

  /** An unflagged entry never differs from the view below; hence it can be dropped or fetched again. */
  lemma UnflaggedAgrees(e: Entry, below: Option<Coin>)
    requires EntryOk(e, below) && !e.isDirty
    ensures Seen(Some(e), below) == below
  {
  }

  lemma PutOk(c: Entries, below: Coins, o: OutPoint, e: Entry)
    requires CacheOk(c, below) && EntryOk(e, Look(below, o))
    ensures CacheOk(c[o := e], below)
    ensures ViewOf(c[o := e], below)
         == if e.coin.IsSpent() then ViewOf(c, below) - {o} else ViewOf(c, below)[o := e.coin]
  {
    var v := ViewOf(c, below);
    var w := if e.coin.IsSpent() then v - {o} else v[o := e.coin];
    forall k ensures Look(w, k) == Seen(Find(c[o := e], k), Look(below, k)) {
      ViewOfAt(c, below, k);
    }
    SameView(c[o := e], below, w);
  }

  lemma DropOk(c: Entries, below: Coins, o: OutPoint)
    requires CacheOk(c, below)
    ensures CacheOk(c - {o}, below)
    ensures ViewOf(c - {o}, below)
         == if o in below then ViewOf(c, below)[o := below[o]] else ViewOf(c, below) - {o}
  {
    var v := ViewOf(c, below);
    var w := if o in below then v[o := below[o]] else v - {o};
    forall k ensures Look(w, k) == Seen(Find(c - {o}, k), Look(below, k)) {
      ViewOfAt(c, below, k);
    }
    SameView(c - {o}, below, w);
  }

  // ---------- one key of BatchWrite ----------

  datatype Merged = Misapplied | Merge(entry: Option<Entry>)

  /** What BatchWrite makes of the parent's entry `us` when the child hands up `it`. */
  function MergeEntry(us: Option<Entry>, it: Entry): Merged {
    if !it.isDirty then
      Merge(us)
    else
      match us
      case None =>
        if it.isFresh && it.coin.IsSpent() then Merge(None)
        else Merge(Some(Entry(it.coin, true, it.isFresh)))
      case Some(e) =>
        if it.isFresh && !e.coin.IsSpent() then Misapplied
        else if e.isFresh && it.coin.IsSpent() then Merge(None)
        else Merge(Some(Entry(it.coin, true, e.isFresh)))
  }

  /**
   Handing an entry up is sound: the FRESH flag is never found misapplied, the
   parent's entry again satisfies its rule against the grandparent, and the parent
   then shows what the child showed. The child's rule is taken against what the
   parent shows, the parent's against what the grandparent shows.
   */
  lemma MergeSound(us: Option<Entry>, it: Entry, grand: Option<Coin>)
    requires us.Some? ==> EntryOk(us.value, grand)
    requires EntryOk(it, Seen(us, grand))
    ensures MergeEntry(us, it).Merge?
    ensures var r := MergeEntry(us, it).entry;
            && (r.Some? ==> EntryOk(r.value, grand))
            && Seen(r, grand) == Seen(Some(it), Seen(us, grand))
  {
  }

  function Set(c: Entries, o: OutPoint, e: Option<Entry>): Entries {
    match e
    case None => c - {o}
    case Some(entry) => c[o := entry]
  }

  /** BatchWrite over the listed entries of `c`, first to last; None where it throws. */
  function MergeAll(us: Entries, c: Entries, l: seq<OutPoint>): Option<Entries>
    requires forall o :: o in l ==> o in c
  {
    if l == [] then Some(us)
    else
      var last := l[|l| - 1];
      match MergeAll(us, c, l[..|l| - 1])
      case None => None
      case Some(m) =>
        match MergeEntry(Find(m, last), c[last])
        case Misapplied => None
        case Merge(e) => Some(Set(m, last, e))
  }

  /** Each listed key is merged once, from what the parent held at the start; other keys keep their entries. */
  lemma {:induction false} MergeAllAt(us: Entries, c: Entries, l: seq<OutPoint>, grand: Coins)
    requires NoRepeats(l) && forall o :: o in l ==> o in c
    requires CacheOk(us, grand) && CacheOk(c, ViewOf(us, grand))
    ensures MergeAll(us, c, l).Some?
    ensures forall o :: o in l ==> MergeEntry(Find(us, o), c[o]).Merge?
    ensures var m := MergeAll(us, c, l).value;
            forall o :: Find(m, o) == if o in l then MergeEntry(Find(us, o), c[o]).entry else Find(us, o)
  {
    if l != [] {
      var last, rest := l[|l| - 1], l[..|l| - 1];
      MergeAllAt(us, c, rest, grand);
      assert last !in rest;
      ViewOfAt(us, grand, last);
      MergeSound(Find(us, last), c[last], Look(grand, last));
      assert forall o :: o in l <==> o in rest || o == last;
    }
  }

  /**
   Handing a whole level up never finds FRESH misapplied, leaves the parent's level
   satisfying its rule, and makes the parent show exactly what the child showed,
   whatever the order of the list.
   */
  lemma MergeAllSound(us: Entries, c: Entries, l: seq<OutPoint>, grand: Coins)
    requires Linked(c, l)
    requires CacheOk(us, grand) && CacheOk(c, ViewOf(us, grand))
    ensures MergeAll(us, c, l).Some?
    ensures CacheOk(MergeAll(us, c, l).value, grand)
    ensures ViewOf(MergeAll(us, c, l).value, grand) == ViewOf(c, ViewOf(us, grand))
  {
    MergeAllAt(us, c, l, grand);
    var m := MergeAll(us, c, l).value;
    var v := ViewOf(us, grand);
    forall o
      ensures o in m ==> EntryOk(m[o], Look(grand, o))
      ensures Look(ViewOf(c, v), o) == Seen(Find(m, o), Look(grand, o))
    {
      ViewOfAt(us, grand, o);
      ViewOfAt(c, v, o);
      assert Find(m, o) == if o in l then MergeEntry(Find(us, o), c[o]).entry else Find(us, o);
      if o in l {
        MergeSound(Find(us, o), c[o], Look(grand, o));
      }
    }
    SameView(m, grand, ViewOf(c, v));
  }

  function StoreOne(stored: Coins, o: OutPoint, e: Entry): Coins {
    if !e.isDirty then stored
    else if e.coin.IsSpent() then stored - {o}
    else stored[o := e.coin]
  }

  /** The database's own batch: spent coins are deleted, unspent ones written, unchanged ones skipped. */
  function StoreAll(stored: Coins, c: Entries, l: seq<OutPoint>): Coins
    requires forall o :: o in l ==> o in c
  {
    if l == [] then stored
    else
      var last := l[|l| - 1];
      StoreOne(StoreAll(stored, c, l[..|l| - 1]), last, c[last])
  }

  lemma {:induction false} StoreAllAt(stored: Coins, c: Entries, l: seq<OutPoint>, o: OutPoint)
    requires forall k :: k in l ==> k in c
    ensures Look(StoreAll(stored, c, l), o)
         == if o in l && c[o].isDirty then Seen(Some(c[o]), None) else Look(stored, o)
  {
    if l != [] {
      StoreAllAt(stored, c, l[..|l| - 1], o);
      assert l == l[..|l| - 1] + [l[|l| - 1]];
    }
  }

  /** A batch write to the database makes it hold exactly the coins the cache showed. */
  lemma StoreAllSound(stored: Coins, c: Entries, l: seq<OutPoint>)
    requires Linked(c, l) && CacheOk(c, Unspent(stored))
    ensures Unspent(StoreAll(stored, c, l)) == ViewOf(c, Unspent(stored))
  {
    var s, v := Unspent(StoreAll(stored, c, l)), ViewOf(c, Unspent(stored));
    forall o ensures Look(s, o) == Look(v, o) {
      StoreAllAt(stored, c, l, o);
      ViewOfAt(c, Unspent(stored), o);
    }
    forall o ensures (o in s <==> o in v) && (o in s ==> s[o] == v[o]) {
      assert Look(s, o) == Look(v, o);
    }
  }

  // ---------- one key of AddCoin and SpendCoin ----------

  /** The entry AddCoin leaves, or None where it throws. */
  function AddEntry(us: Option<Entry>, coin: Coin, possibleOverwrite: bool): Option<Entry> {
    if !possibleOverwrite && us.Some? && !us.value.coin.IsSpent() then
      None
    else
      var marksFresh := !possibleOverwrite && !(us.Some? && us.value.isDirty);
      Some(Entry(coin, true, marksFresh || (us.Some? && us.value.isFresh)))
  }

  /**
   AddCoin keeps the level's rule if and only if its caller told the truth: either
   an overwrite was announced or no coin was visible. This covers the re-add of a
   coin whose spentness has not been handed up yet.
   */
  lemma AddSoundIff(us: Option<Entry>, coin: Coin, possibleOverwrite: bool, below: Option<Coin>)
    requires !coin.IsSpent()
    requires us.Some? ==> EntryOk(us.value, below)
    requires AddEntry(us, coin, possibleOverwrite).Some?
    ensures EntryOk(AddEntry(us, coin, possibleOverwrite).value, below)
       <==> possibleOverwrite || Seen(us, below).None?
  {
  }

  /** The entry SpendCoin leaves: FRESH entries vanish, others stay as a spent DIRTY marker. */
  function SpendEntry(e: Entry): Option<Entry> {
    if e.isFresh then None else Some(Entry(EMPTY_COIN, true, false))
  }

  lemma SpendSound(e: Entry, below: Option<Coin>)
    requires EntryOk(e, below)
    ensures Seen(SpendEntry(e), below).None?
    ensures SpendEntry(e).Some? ==> EntryOk(SpendEntry(e).value, below)
  {
  }

  // ---------- Sync on the child's side ----------

  /** What the cursor leaves of a child's entry when the cache is kept. */
  function SyncEntry(e: Entry): Option<Entry> {
    if e.coin.IsSpent() then None else Some(Entry(e.coin, false, false))
  }

  /** After the hand-up the kept entry satisfies its rule against the parent's new view and shows the same. */
  lemma SyncSound(e: Entry, below: Option<Coin>)
    requires EntryOk(e, below)
    ensures var shown := Seen(Some(e), below);
            && (SyncEntry(e).Some? ==> EntryOk(SyncEntry(e).value, shown))
            && Seen(SyncEntry(e), shown) == shown
  {
  }

  /** The child's entries once the cursor has passed the listed keys. */
  function Synced(c: Entries, l: seq<OutPoint>): Entries {
    map o | o in c && !(o in l && c[o].coin.IsSpent())
      :: if o in l then Entry(c[o].coin, false, false) else c[o]
  }

  /** A kept cache, once handed up, holds no flag, satisfies its rule against the new view below and shows the same. */
  lemma SyncedSound(c: Entries, l: seq<OutPoint>, below: Coins)
    requires Linked(c, l) && CacheOk(c, below)
    ensures var v := ViewOf(c, below);
            CacheOk(Synced(c, l), v) && ViewOf(Synced(c, l), v) == v && Linked(Synced(c, l), [])
  {
    var s, v := Synced(c, l), ViewOf(c, below);
    forall o
      ensures o in s ==> EntryOk(s[o], Look(v, o))
      ensures Look(v, o) == Seen(Find(s, o), Look(v, o))
    {
      ViewOfAt(c, below, o);
      if o in c {
        SyncSound(c[o], Look(below, o));
      }
    }
    SameView(s, v, v);
  }

  /**
   When the database refuses what a sync hands it, the flags are gone although nothing was stored.
   The level is still right, and still shows the same, exactly when it had nothing to hand down.
   */
  lemma RefusedSync(c: Entries, l: seq<OutPoint>, below: Coins)
    requires Linked(c, l) && CacheOk(c, below)
    ensures CacheOk(Synced(c, l), below) && ViewOf(Synced(c, l), below) == ViewOf(c, below)
            <==> ViewOf(c, below) == below
  {
    var s := Synced(c, l);
    forall o ensures Look(ViewOf(c, below), o) == Seen(Find(c, o), Look(below, o))
                     && Look(ViewOf(s, below), o) == Seen(Find(s, o), Look(below, o)) {
      ViewOfAt(c, below, o);
      ViewOfAt(s, below, o);
    }
    if ViewOf(c, below) == below {
      SameView(s, below, below);
    } else if CacheOk(s, below) && ViewOf(s, below) == ViewOf(c, below) {
      SameView(c, below, below);
    }
  }

  // ---------- the linked list of flagged entries ----------

  ghost predicate NoRepeats(l: seq<OutPoint>) {
    forall i, j :: 0 <= i < j < |l| ==> l[i] != l[j]
  }

  /** The list holds each flagged entry once and nothing else. */
  ghost predicate Linked(c: Entries, l: seq<OutPoint>) {
    && NoRepeats(l)
    && forall o :: o in l <==> o in c && c[o].Flagged()
  }

  function Unlink(l: seq<OutPoint>, o: OutPoint): (r: seq<OutPoint>)
    ensures forall k :: k in r <==> k in l && k != o
  {
    if l == [] then []
    else if l[0] == o then Unlink(l[1..], o)
    else [l[0]] + Unlink(l[1..], o)
  }

  lemma {:induction false} UnlinkNoRepeats(l: seq<OutPoint>, o: OutPoint)
    requires NoRepeats(l)
    ensures NoRepeats(Unlink(l, o))
  {
    if l != [] {
      UnlinkNoRepeats(l[1..], o);
      var r := Unlink(l[1..], o);
      forall k | k in r ensures k != l[0] {
        var i :| 0 <= i < |l[1..]| && l[1..][i] == k;
        assert l[i + 1] == k;
      }
      if l[0] != o {
        assert Unlink(l, o) == [l[0]] + r;
        forall j | 0 <= j < |r| ensures r[j] != l[0] {
          assert r[j] in r;
        }
      }
    }
  }

  /** AddFlags: an entry gaining its first flag goes to the end of the list. */
  function Link(l: seq<OutPoint>, o: OutPoint, wasFlagged: bool): seq<OutPoint> {
    if wasFlagged then l else l + [o]
  }

  lemma LinkOk(c: Entries, l: seq<OutPoint>, o: OutPoint, e: Entry)
    requires Linked(c, l)
    ensures e.Flagged() ==> Linked(c[o := e], Link(l, o, o in c && c[o].Flagged()))
    ensures !e.Flagged() && o !in c ==> Linked(c[o := e], l)
  {
  }

  lemma UnlinkOk(c: Entries, l: seq<OutPoint>, o: OutPoint)
    requires Linked(c, l)
    ensures Linked(c - {o}, Unlink(l, o))
    ensures !(o in c && c[o].Flagged()) ==> Linked(c - {o}, l)
  {
    UnlinkNoRepeats(l, o);
  }

  // ---------- memory accounting ----------

  ghost function TotalUsage(c: Entries): nat {
    if c == map[] then 0
    else
      var o :| o in c;
      c[o].coin.DynamicMemoryUsage() + TotalUsage(c - {o})
  }

  /** The total does not depend on the order of summation. */
  lemma {:induction false} TotalUsageAt(c: Entries, o: OutPoint)
    requires o in c
    ensures TotalUsage(c) == c[o].coin.DynamicMemoryUsage() + TotalUsage(c - {o})
    decreases |c|
  {
    var k :| k in c && TotalUsage(c) == c[k].coin.DynamicMemoryUsage() + TotalUsage(c - {k});
    if k != o {
      TotalUsageAt(c - {k}, o);
      TotalUsageAt(c - {o}, k);
      assert c - {k} - {o} == c - {o} - {k};
    }
  }

  lemma TotalUsagePut(c: Entries, o: OutPoint, e: Entry)
    ensures TotalUsage(c[o := e])
         == TotalUsage(c) - (if o in c then c[o].coin.DynamicMemoryUsage() else 0) + e.coin.DynamicMemoryUsage()
  {
    TotalUsageAt(c[o := e], o);
    assert c[o := e] - {o} == c - {o};
    if o in c {
      TotalUsageAt(c, o);
    } else {
      assert c - {o} == c;
    }
  }

  // ---------- the sanity check ----------

  function FlaggedKeys(c: Entries): set<OutPoint> {
    set o | o in c && c[o].Flagged()
  }

  /** Everything the runtime sanity check looks at. */
  ghost predicate Sane(c: Entries, l: seq<OutPoint>, usage: int) {
    && (forall o :: o in c ==> LegalFlags(c[o]))
    && (forall i :: 0 <= i < |l| ==> l[i] in c && c[l[i]].Flagged())
    && |l| == |FlaggedKeys(c)|
    && usage == TotalUsage(c)
  }

  lemma {:induction false} NoRepeatsSize(l: seq<OutPoint>)
    requires NoRepeats(l)
    ensures |set o | o in l| == |l|
  {
    if l == [] {
      assert (set o | o in l) == {};
    } else {
      var last, rest := l[|l| - 1], l[..|l| - 1];
      NoRepeatsSize(rest);
      assert last !in rest;
      assert (set o | o in l) == (set o | o in rest) + {last};
    }
  }

  /** A level that satisfies its rules always passes the sanity check. */
  lemma RulesAreSane(c: Entries, l: seq<OutPoint>, below: Coins)
    requires CacheOk(c, below) && Linked(c, l)
    ensures Sane(c, l, TotalUsage(c))
  {
    NoRepeatsSize(l);
    assert (set o | o in l) == FlaggedKeys(c);
    forall i | 0 <= i < |l| ensures l[i] in c && c[l[i]].Flagged() {
      assert l[i] in l;
    }
  }
}
