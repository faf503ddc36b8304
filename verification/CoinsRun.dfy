/**
 Whole runs over a stack of caches, compared with the obvious reference: one plain
 map from outpoint to coin per level, where adding inserts, spending removes,
 flushing and syncing copy the top map one level down, a new cache copies the top
 map, and discarding a cache forgets its map.
 */
module CoinsRun {
  import opened Wrappers
  import opened CoinEntries
  import opened CoinsCache

  datatype Op =
    | Add(o: OutPoint, coin: Coin, possibleOverwrite: bool)
    | Spend(o: OutPoint)
    | Get(o: OutPoint)
    | HaveAll(prevouts: seq<OutPoint>, isCoinBase: bool)
    | Forget(o: OutPoint)
    | FlushDown(hash: BlockHash)
    | SyncDown(hash: BlockHash)
    | FlushRefused(hash: BlockHash)   // the storage engine refuses the batch
    | NewCache
    | Discard

  datatype Answer = Silent | Held(coin: Option<Coin>) | Truth(value: bool)

  /** One map per level, database first; the last one is what the user of the stack sees. */
  type Stack = s: seq<Coins> | |s| >= 2 witness [map[], map[]]

  function Top(s: Stack): Coins { s[|s| - 1] }

  /**
   What callers promise: no unannounced overwrite, a known block when writing down, and never discard
   the last cache. Only a write to the database can be refused.
   */
  predicate Legal(s: Stack, op: Op) {
    match op
    case Add(o, coin, possibleOverwrite) =>
      !coin.IsSpent() && (coin.IsUnspendable() || possibleOverwrite || o !in Top(s))
    case FlushDown(hash) => hash != NULL_HASH
    case SyncDown(hash) => hash != NULL_HASH
    case FlushRefused(hash) => hash != NULL_HASH && |s| == 2
    case Discard => |s| >= 3
    case _ => true
  }

  /** The reference effect on plain maps. */
  function Step(s: Stack, op: Op): Stack {
    var n := |s| - 1;
    match op
    case Add(o, coin, _) => if coin.IsUnspendable() then s else s[n := s[n][o := coin]]
    case Spend(o) => s[n := s[n] - {o}]
    case FlushDown(_) => s[n - 1 := s[n]]
    case SyncDown(_) => s[n - 1 := s[n]]
    case NewCache => s + [s[n]]
    case Discard => if |s| >= 3 then s[..n] else s
    case _ => s
  }

  /** The reference answer on plain maps. */
  function Reply(s: Stack, op: Op): Answer {
    match op
    case Get(o) => Held(Look(Top(s), o))
    case Spend(o) => Held(Look(Top(s), o))
    case HaveAll(prevouts, isCoinBase) =>
      Truth(isCoinBase || forall i :: 0 <= i < |prevouts| ==> prevouts[i] in Top(s))
    case FlushDown(_) => Truth(true)
    case SyncDown(_) => Truth(true)
    case FlushRefused(_) => Truth(false)
    case _ => Silent
  }

  ghost predicate AllLegal(s: Stack, ops: seq<Op>)
    decreases |ops|
  {
    ops == [] || (Legal(s, ops[0]) && AllLegal(Step(s, ops[0]), ops[1..]))
  }

  function StepAll(s: Stack, ops: seq<Op>): Stack
    decreases |ops|
  {
    if ops == [] then s else StepAll(Step(s, ops[0]), ops[1..])
  }

  function ReplyAll(s: Stack, ops: seq<Op>): seq<Answer>
    decreases |ops|
  {
    if ops == [] then [] else [Reply(s, ops[0])] + ReplyAll(Step(s, ops[0]), ops[1..])
  }

  /** The maps a real stack stands for. */
  ghost function MapsOf(top: CoinsViewCache): Stack
    requires |top.levels| > 0
    reads top
  {
    var s := top.levels + [top.shown];
    assert |s| == |top.levels| + 1;
    s
  }

  predicate Local(op: Op) { op.Add? || op.Spend? || op.Get? || op.HaveAll? || op.Forget? }

  /** Operations that only touch what the top shows. */
  method DoLocal(top: CoinsViewCache, op: Op) returns (answer: Answer)
    requires top.Valid() && Local(op) && Legal(MapsOf(top), op)
    modifies top.repr
    ensures top.Valid() && top.levels == old(top.levels)
    ensures top.shown == Top(Step(old(MapsOf(top)), op))
    ensures answer == Reply(old(MapsOf(top)), op)
  {
    answer := Silent;
    match op {
      case Add(o, coin, possibleOverwrite) =>
        var threw := top.AddCoin(o, coin, possibleOverwrite);
      case Spend(o) =>
        var spent, moveout := top.SpendCoin(o);
        answer := Held(if moveout.IsSpent() then None else Some(moveout));
      case Get(o) =>
        var found, coin := top.GetCoin(o);
        answer := Held(if found then Some(coin) else None);
      case HaveAll(prevouts, isCoinBase) =>
        var have := top.HaveInputs(prevouts, isCoinBase);
        answer := Truth(have);
      case Forget(o) =>
        top.Uncache(o);
    }
  }

  predicate Writes(op: Op) { op.FlushDown? || op.SyncDown? || op.FlushRefused? }

  /** A stack of two views is one cache over a database. */
  lemma LastCache(top: CoinsViewCache)
    requires top.Valid()
    ensures top.base.OnDisk? <==> |MapsOf(top)| == 2
  {
    if top.base.OnCache? {
      var v := top.base.view;
      assert v.Valid();
      assert |v.levels| > 0;
    }
  }

  /** Operations that hand the changes of the top to the level below it. */
  method WriteDown(top: CoinsViewCache, op: Op) returns (answer: Answer)
    requires top.Valid() && Writes(op) && Legal(MapsOf(top), op)
    modifies top.repr
    ensures top.Valid() && MapsOf(top) == Step(old(MapsOf(top)), op)
    ensures answer == Reply(old(MapsOf(top)), op)
  {
    if op.FlushRefused? {
      LastCache(top);
    }
    top.SetBestBlock(op.hash);
    hide CoinsViewCache.Valid, CoinsViewCache.Level, CoinsViewCache.Stacked;
    var ok: bool;
    if op.SyncDown? {
      ok := top.Sync(true);
    } else {
      ok := top.Flush(op.FlushDown?);
    }
    answer := Truth(ok);
  }

  /** One operation on a real stack does what it does on the plain maps, and answers the same. */
  method Do(top: CoinsViewCache, op: Op) returns (end: CoinsViewCache, answer: Answer)
    requires top.Valid() && Legal(MapsOf(top), op)
    modifies top.repr
    ensures end.Valid() && fresh(end.repr - top.repr)
    ensures MapsOf(end) == Step(old(MapsOf(top)), op)
    ensures answer == Reply(old(MapsOf(top)), op)
  {
    end, answer := top, Silent;
    match op {
      case FlushDown(_) =>
        answer := WriteDown(top, op);
      case SyncDown(_) =>
        answer := WriteDown(top, op);
      case FlushRefused(_) =>
        answer := WriteDown(top, op);
      case NewCache =>
        end := new CoinsViewCache(OnCache(top));
      case Discard =>
        end := top.base.view;
      case _ =>
        answer := DoLocal(top, op);
    }
  }

  /**
   Refinement over whole runs: for every stack of any depth and every sequence of
   operations whose callers keep their promises, the caches end up standing for the
   maps the reference ends with, and every answer on the way is the reference's.
   */
  method Run(top: CoinsViewCache, ops: seq<Op>) returns (end: CoinsViewCache, answers: seq<Answer>)
    requires top.Valid() && AllLegal(MapsOf(top), ops)
    modifies top.repr
    ensures end.Valid() && fresh(end.repr - top.repr)
    ensures MapsOf(end) == StepAll(old(MapsOf(top)), ops)
    ensures answers == ReplyAll(old(MapsOf(top)), ops)
    decreases |ops|
  {
    if ops == [] {
      return top, [];
    }
    var next, answer := Do(top, ops[0]);
    end, answers := Run(next, ops[1..]);
    answers := [answer] + answers;
  }
}
