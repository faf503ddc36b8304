/**
 The parallel check queue as a state machine. Each step is one critical section of
 one thread, or one check run outside the lock; a run is any interleaving of steps
 by any number of workers and the master. Thread 0 is the master.
 */
module CheckQueue {
  /** A verification and what it will answer. */
  datatype Check = Check(id: nat, ok: bool)

  datatype Phase =
    | Outside                                          // not in the loop: worker not started, master not waiting
    | Entering                                         // about to take the lock for the first time
    | Holding                                          // inside the critical section
    | Sleeping(signalled: bool)                        // blocked on its condition variable
    | Working(batch: seq<Check>, ran: nat, fOk: bool)  // running its batch without the lock
    | Done(batch: seq<Check>, fOk: bool)               // batch run, about to take the lock again

  datatype State = State(
    queue: seq<Check>, nIdle: int, nTotal: int, fAllOk: bool, nTodo: int, nBatchSize: nat,
    threads: seq<Phase>,
    added: multiset<Check>,       // everything added since the last Wait
    finished: multiset<Check>,    // of these, what has been accounted for
    answers: seq<(bool, bool)>)   // each Wait so far: its answer, and whether all its checks were good

  /** Notify is the controller telling one sleeping worker, after an Add and before it waits itself. */
  datatype Event =
    Enter(t: nat) | Lock(t: nat) | Wake(t: nat) | RunOne(t: nat) | Add(checks: seq<Check>) | Notify(t: nat)

  const MASTER := 0

  // ---------- steps ----------

  function Max(a: int, b: int): int { if a < b then b else a }
  function Min(a: int, b: int): int { if a < b then a else b }

  /** How many checks to take, aiming at ever smaller batches. */
  function BatchSize(s: State): (n: int)
    ensures s.queue != [] ==> 1 <= n <= |s.queue|
  {
    Max(1, Min(s.nBatchSize, |s.queue| / Sharers(s)))
  }

  /** As many as the batch size and a fair share of the queue allow, but one at least. */
  lemma BatchIsShare(s: State)
    ensures var n := BatchSize(s);
      && (n == 1 || (1 < n <= s.nBatchSize && n * Sharers(s) <= |s.queue|))
      && (n >= s.nBatchSize || (n + 1) * Sharers(s) > |s.queue|)
  {
    Share(|s.queue|, Sharers(s));
  }

  lemma Share(q: nat, d: nat)
    requires d >= 1
    ensures (q / d) * d <= q < (q / d + 1) * d
  {
  }

  /**
   The threads that may soon take a share, the idle ones twice, and one more; see InvSharers for its
   being positive.
   */
  function Sharers(s: State): (n: int)
    ensures n >= 1
  {
    Max(1, s.nTotal + s.nIdle + 1)
  }

  /** The part of the loop after the clean-up, run by thread `t` holding the lock. */
  function Proceed(s: State, t: nat): State
    requires t < |s.threads|
  {
    if s.queue == [] then
      if t == MASTER && s.nTodo == 0 then
        s.(nTotal := s.nTotal - 1, fAllOk := true, threads := s.threads[t := Outside],
           added := multiset{}, finished := multiset{},
           answers := s.answers + [(s.fAllOk, AllGood(s.added))])
      else
        s.(nIdle := s.nIdle + 1, threads := s.threads[t := Sleeping(false)])
    else
      var rest := |s.queue| - BatchSize(s);
      s.(queue := s.queue[..rest], threads := s.threads[t := Working(s.queue[rest..], 0, s.fAllOk)])
  }

  predicate AllGood(checks: multiset<Check>) {
    forall c | c in checks :: c.ok
  }

  /** What a thread does on getting the lock, before it looks at the queue. */
  function TakeLock(s: State, t: nat): State
    requires t < |s.threads| && (s.threads[t].Entering? || s.threads[t].Done? || s.threads[t].Sleeping?)
  {
    match s.threads[t]
    case Entering => s.(nTotal := s.nTotal + 1, threads := s.threads[t := Holding])
    case Done(_, _) => CleanUp(s, t)
    case Sleeping(_) => s.(nIdle := s.nIdle - 1, threads := s.threads[t := Holding])
  }

  /** The clean-up of a finished batch; the last one out wakes the master if it sleeps. */
  function CleanUp(s: State, t: nat): State
    requires t < |s.threads| && s.threads[t].Done?
  {
    var done := s.threads[t];
    var todo := s.nTodo - |done.batch|;
    var threads := if todo == 0 && t != MASTER then Signal(s.threads) else s.threads;
    s.(fAllOk := s.fAllOk && done.fOk, nTodo := todo,
      threads := threads[t := Holding], finished := s.finished + multiset(done.batch))
  }

  function Signal(threads: seq<Phase>): seq<Phase> {
    if |threads| > 0 && threads[MASTER].Sleeping? then threads[MASTER := Sleeping(true)] else threads
  }

  predicate Enabled(s: State, e: Event) {
    match e
    case Enter(t) => t < |s.threads| && s.threads[t].Outside?
    case Lock(t) => t < |s.threads| && (s.threads[t].Entering? || s.threads[t].Done?)
    case Wake(t) => t < |s.threads| && s.threads[t].Sleeping?  // notified or spurious
    case RunOne(t) => t < |s.threads| && s.threads[t].Working?
    case Add(checks) => |s.threads| > 0 && s.threads[MASTER].Outside?  // the controller adds before it waits
    case Notify(t) => 0 < t < |s.threads| && s.threads[t].Sleeping? && s.threads[MASTER].Outside?
  }

  function Step(s: State, e: Event): State
    requires Enabled(s, e)
  {
    match e
    case Enter(t) =>
      s.(threads := s.threads[t := Entering])
    case Lock(t) => Proceed(TakeLock(s, t), t)
    case Wake(t) => Proceed(TakeLock(s, t), t)
    case RunOne(t) =>
      var w := s.threads[t];
      if w.ran < |w.batch| then
        s.(threads := s.threads[t := Working(w.batch, w.ran + 1, w.fOk && w.batch[w.ran].ok)])
      else
        s.(threads := s.threads[t := Done(w.batch, w.fOk)])
    case Add(checks) =>
      s.(queue := s.queue + checks, nTodo := s.nTodo + |checks|, added := s.added + multiset(checks))
    case Notify(t) =>
      s.(threads := s.threads[t := Sleeping(true)])
  }

  predicate Start(s: State) {
    && s.queue == [] && s.nIdle == 0 && s.nTotal == 0 && s.fAllOk && s.nTodo == 0
    && |s.threads| > 0 && (forall t :: 0 <= t < |s.threads| ==> s.threads[t].Outside?)
    && s.added == multiset{} && s.finished == multiset{} && s.answers == []
  }

  ghost predicate CanRun(s: State, events: seq<Event>)
    decreases |events|
  {
    events == [] || (Enabled(s, events[0]) && CanRun(Step(s, events[0]), events[1..]))
  }

  ghost function Run(s: State, events: seq<Event>): State
    requires CanRun(s, events)
    decreases |events|
  {
    if events == [] then s else Run(Step(s, events[0]), events[1..])
  }

  // ---------- counting over threads ----------

  function Batch(p: Phase): seq<Check> {
    match p
    case Working(batch, _, _) => batch
    case Done(batch, _) => batch
    case _ => []
  }

  /** Checks taken from the queue and not yet accounted for. */
  ghost function Flying(threads: seq<Phase>): multiset<Check> {
    if threads == [] then multiset{} else multiset(Batch(threads[0])) + Flying(threads[1..])
  }

  lemma {:induction false} FlyingUpdate(threads: seq<Phase>, t: nat, p: Phase)
    requires t < |threads|
    ensures Flying(threads[t := p]) + multiset(Batch(threads[t])) == Flying(threads) + multiset(Batch(p))
  {
    if t == 0 {
      assert threads[0 := p][1..] == threads[1..];
    } else {
      var rest := threads[1..];
      FlyingUpdate(rest, t - 1, p);
      assert threads[t := p][1..] == rest[t - 1 := p];
      SumShift(multiset(Batch(threads[0])), Flying(rest[t - 1 := p]), multiset(Batch(rest[t - 1])), Flying(rest),
        multiset(Batch(p)));
    }
  }

  lemma SumShift(a: multiset<Check>, x: multiset<Check>, b: multiset<Check>, y: multiset<Check>, c: multiset<Check>)
    requires x + b == y + c
    ensures (a + x) + b == (a + y) + c
  {
    assert (a + x) + b == a + (x + b);
  }

  lemma {:induction false} FlyingAt(threads: seq<Phase>, t: nat)
    requires t < |threads|
    ensures multiset(Batch(threads[t])) <= Flying(threads)
  {
    if t > 0 {
      FlyingAt(threads[1..], t - 1);
    }
  }

  lemma {:induction false} FlyingNone(threads: seq<Phase>)
    requires |Flying(threads)| == 0
    ensures forall t :: 0 <= t < |threads| ==> Batch(threads[t]) == []
  {
    forall t | 0 <= t < |threads| ensures Batch(threads[t]) == [] {
      FlyingAt(threads, t);
      assert |multiset(Batch(threads[t]))| == |Batch(threads[t])|;
    }
  }

  ghost function Count(threads: seq<Phase>, f: Phase -> bool): nat {
    if threads == [] then 0 else (if f(threads[0]) then 1 else 0) + Count(threads[1..], f)
  }

  lemma {:induction false} CountUpdate(threads: seq<Phase>, t: nat, p: Phase, f: Phase -> bool)
    requires t < |threads|
    ensures Count(threads[t := p], f) == Count(threads, f) - (if f(threads[t]) then 1 else 0) + (if f(p) then 1 else 0)
  {
    if t == 0 {
      assert threads[0 := p][1..] == threads[1..];
    } else {
      CountUpdate(threads[1..], t - 1, p, f);
      assert threads[t := p][1..] == threads[1..][t - 1 := p];
    }
  }

  function IsSleeping(p: Phase): bool { p.Sleeping? }
  function IsInside(p: Phase): bool { p.Holding? || p.Sleeping? || p.Working? || p.Done? }

  // ---------- the invariant ----------

  /** A batch in hand: if its verdict is still good, what it has run was good; if not, something added is bad. */
  ghost predicate PhaseOk(p: Phase, added: multiset<Check>) {
    match p
    case Working(batch, ran, fOk) =>
      && ran <= |batch| && batch != []
      && (fOk ==> forall i :: 0 <= i < ran ==> batch[i].ok)
      && (!fOk ==> !AllGood(added))
    case Done(batch, fOk) =>
      && batch != []
      && (fOk ==> forall i :: 0 <= i < |batch| ==> batch[i].ok)
      && (!fOk ==> !AllGood(added))
    case _ => true
  }

  ghost predicate Counts(s: State) {
    && s.nIdle == Count(s.threads, IsSleeping)
    && s.nTotal == Count(s.threads, IsInside)
  }

  /** Nothing is lost and nothing is taken twice; nTodo counts what is queued and what is in flight. */
  ghost predicate Conserved(s: State) {
    && s.added == multiset(s.queue) + Flying(s.threads) + s.finished
    && s.nTodo == |s.queue| + |Flying(s.threads)|
  }

  ghost predicate Verdicts(s: State) {
    && (forall t :: 0 <= t < |s.threads| ==> PhaseOk(s.threads[t], s.added))
    && (s.fAllOk ==> AllGood(s.finished))
    && (!s.fAllOk ==> !AllGood(s.added))
  }

  /** A sleeping master has nothing to take, and is either signalled or still owed a signal. */
  ghost predicate MasterServed(s: State) {
    && |s.threads| > 0
    && (s.threads[MASTER].Sleeping? ==> s.queue == [] && (s.threads[MASTER].signalled || s.nTodo > 0))
  }

  /** Every Wait so far answered whether all its checks were good. */
  ghost predicate Answered(s: State) {
    forall i :: 0 <= i < |s.answers| ==> s.answers[i].0 == s.answers[i].1
  }

  ghost predicate Inv(s: State) {
    Counts(s) && Conserved(s) && Verdicts(s) && MasterServed(s) && Answered(s)
  }

  // ---------- it holds throughout ----------

  lemma InvSharers(s: State)
    requires Inv(s)
    ensures Sharers(s) == s.nTotal + s.nIdle + 1
  {
  }

  lemma StartInv(s: State)
    requires Start(s)
    ensures Inv(s)
  {
    AllOutside(s.threads);
  }

  lemma {:induction false} AllOutside(threads: seq<Phase>)
    requires forall t :: 0 <= t < |threads| ==> threads[t].Outside?
    ensures Flying(threads) == multiset{} && Count(threads, IsSleeping) == 0 && Count(threads, IsInside) == 0
  {
    if threads != [] {
      AllOutside(threads[1..]);
    }
  }

  lemma ProceedInv(s: State, t: nat)
    requires Inv(s) && t < |s.threads| && s.threads[t].Holding?
    ensures Inv(Proceed(s, t))
  {
    if s.queue == [] {
      if t == MASTER && s.nTodo == 0 {
        ReturnInv(s);
      } else {
        SleepInv(s, t);
      }
    } else {
      TakeInv(s, t);
    }
  }

  lemma UpdateCounts(threads: seq<Phase>, t: nat, p: Phase)
    requires t < |threads|
    ensures Count(threads[t := p], IsSleeping) ==
      Count(threads, IsSleeping) - (if threads[t].Sleeping? then 1 else 0) + (if p.Sleeping? then 1 else 0)
    ensures Count(threads[t := p], IsInside) ==
      Count(threads, IsInside) - (if IsInside(threads[t]) then 1 else 0) + (if IsInside(p) then 1 else 0)
  {
    CountUpdate(threads, t, p, IsSleeping);
    CountUpdate(threads, t, p, IsInside);
  }

  lemma SameBatch(threads: seq<Phase>, t: nat, p: Phase)
    requires t < |threads| && Batch(threads[t]) == Batch(p)
    ensures Flying(threads[t := p]) == Flying(threads)
  {
    FlyingUpdate(threads, t, p);
    Cancel(Flying(threads[t := p]), Flying(threads), multiset(Batch(p)));
  }

  lemma Cancel(x: multiset<Check>, y: multiset<Check>, c: multiset<Check>)
    requires x + c == y + c
    ensures x == y
  {
    assert x == (x + c) - c && y == (y + c) - c;
  }

  /** When the master finds nothing queued and nothing outstanding, everything added is accounted for. */
  lemma ReturnInv(s: State)
    requires Inv(s) && s.threads[MASTER].Holding? && s.queue == [] && s.nTodo == 0
    ensures Inv(Proceed(s, MASTER))
    ensures s.fAllOk <==> AllGood(s.added)
  {
    var s' := Proceed(s, MASTER);
    UpdateCounts(s.threads, MASTER, Outside);
    SameBatch(s.threads, MASTER, Outside);
    FlyingNone(s.threads);
    assert Flying(s.threads) == multiset{};
    assert s.added == s.finished;
    forall t | 0 <= t < |s'.threads| ensures PhaseOk(s'.threads[t], s'.added) {
      assert t != MASTER ==> PhaseOk(s.threads[t], s.added);
    }
  }

  lemma SleepInv(s: State, t: nat)
    requires Inv(s) && t < |s.threads| && s.threads[t].Holding? && s.queue == []
    requires !(t == MASTER && s.nTodo == 0)
    ensures Inv(Proceed(s, t))
  {
    UpdateCounts(s.threads, t, Sleeping(false));
    SameBatch(s.threads, t, Sleeping(false));
  }

  lemma TakeInv(s: State, t: nat)
    requires Inv(s) && t < |s.threads| && s.threads[t].Holding? && s.queue != []
    ensures Inv(Proceed(s, t))
  {
    hide Counts, Conserved;
    TakeTotals(s, t);
  }

  lemma TakeTotals(s: State, t: nat)
    requires Counts(s) && Conserved(s) && t < |s.threads| && s.threads[t].Holding? && s.queue != []
    ensures Counts(Proceed(s, t)) && Conserved(Proceed(s, t))
  {
    var rest := |s.queue| - BatchSize(s);
    var batch := s.queue[rest..];
    var p := Working(batch, 0, s.fAllOk);
    UpdateCounts(s.threads, t, p);
    FlyingUpdate(s.threads, t, p);
    assert s.queue == s.queue[..rest] + batch;
    TakeSum(multiset(s.queue[..rest]), multiset(batch), Flying(s.threads), s.finished);
    assert Flying(s.threads[t := p]) == Flying(s.threads) + multiset(batch);
  }

  lemma TakeSum(q: multiset<Check>, b: multiset<Check>, f: multiset<Check>, d: multiset<Check>)
    ensures (q + b) + f + d == q + (f + b) + d
  {
  }

  lemma TakeLockInv(s: State, t: nat)
    requires Inv(s) && t < |s.threads| && (s.threads[t].Entering? || s.threads[t].Done? || s.threads[t].Sleeping?)
    ensures Inv(TakeLock(s, t)) && |TakeLock(s, t).threads| == |s.threads| && TakeLock(s, t).threads[t].Holding?
  {
    match s.threads[t]
    case Entering =>
      UpdateCounts(s.threads, t, Holding);
      SameBatch(s.threads, t, Holding);
    case Sleeping(_) =>
      UpdateCounts(s.threads, t, Holding);
      SameBatch(s.threads, t, Holding);
    case Done(batch, fOk) =>
      CleanUpInv(s, t);
  }

  lemma SignalOk(threads: seq<Phase>)
    ensures |Signal(threads)| == |threads| && Flying(Signal(threads)) == Flying(threads)
    ensures Count(Signal(threads), IsSleeping) == Count(threads, IsSleeping)
    ensures Count(Signal(threads), IsInside) == Count(threads, IsInside)
  {
    if |threads| > 0 && threads[MASTER].Sleeping? {
      UpdateCounts(threads, MASTER, Sleeping(true));
      SameBatch(threads, MASTER, Sleeping(true));
    }
  }

  lemma CleanUpInv(s: State, t: nat)
    requires Inv(s) && t < |s.threads| && s.threads[t].Done?
    ensures Inv(CleanUp(s, t))
  {
    hide Counts, Conserved, Verdicts;
    CleanUpTotals(s, t);
    CleanUpVerdicts(s, t);
  }

  lemma CleanUpTotals(s: State, t: nat)
    requires Counts(s) && Conserved(s) && t < |s.threads| && s.threads[t].Done?
    ensures Counts(CleanUp(s, t)) && Conserved(CleanUp(s, t))
  {
    var done, s' := s.threads[t], CleanUp(s, t);
    var todo := s.nTodo - |done.batch|;
    var threads := if todo == 0 && t != MASTER then Signal(s.threads) else s.threads;
    SignalOk(s.threads);
    assert threads[t] == done;
    UpdateCounts(threads, t, Holding);
    FlyingUpdate(threads, t, Holding);
    CleanUpSum(multiset(s.queue), Flying(s'.threads), multiset(done.batch), s.finished);
  }

  lemma CleanUpVerdicts(s: State, t: nat)
    requires Verdicts(s) && t < |s.threads| && s.threads[t].Done?
    ensures Verdicts(CleanUp(s, t))
  {
    var done, s' := s.threads[t], CleanUp(s, t);
    assert PhaseOk(done, s.added);
    forall c | c in multiset(done.batch) && done.fOk ensures c.ok {
      var i :| 0 <= i < |done.batch| && done.batch[i] == c;
    }
    forall i | 0 <= i < |s'.threads| ensures PhaseOk(s'.threads[i], s'.added) {
      assert PhaseOk(s.threads[i], s.added);
    }
  }

  lemma CleanUpSum(q: multiset<Check>, f: multiset<Check>, b: multiset<Check>, d: multiset<Check>)
    ensures q + (f + b) + d == q + f + (d + b)
  {
  }

  lemma RunOneInv(s: State, t: nat)
    requires Inv(s) && t < |s.threads| && s.threads[t].Working?
    ensures Inv(Step(s, RunOne(t)))
  {
    hide Verdicts, Counts, Conserved;
    MoveOn(s, t, Step(s, RunOne(t)).threads[t]);
    RunOneVerdicts(s, t);
  }

  lemma MoveOn(s: State, t: nat, p: Phase)
    requires Counts(s) && Conserved(s) && t < |s.threads|
    requires Batch(s.threads[t]) == Batch(p) && IsSleeping(s.threads[t]) == IsSleeping(p)
    requires IsInside(s.threads[t]) == IsInside(p)
    ensures var s' := s.(threads := s.threads[t := p]); Counts(s') && Conserved(s')
  {
    UpdateCounts(s.threads, t, p);
    SameBatch(s.threads, t, p);
  }

  lemma RunOneVerdicts(s: State, t: nat)
    requires Verdicts(s) && Conserved(s) && t < |s.threads| && s.threads[t].Working?
    ensures Verdicts(Step(s, RunOne(t)))
  {
    var w, s' := s.threads[t], Step(s, RunOne(t));
    assert PhaseOk(w, s.added);
    if w.ran < |w.batch| {
      FlyingAt(s.threads, t);
      assert w.batch[w.ran] in multiset(w.batch);
      assert w.batch[w.ran] in s.added;
    }
    forall i | 0 <= i < |s'.threads| ensures PhaseOk(s'.threads[i], s'.added) {
      assert PhaseOk(s.threads[i], s.added);
    }
  }

  lemma AddInv(s: State, checks: seq<Check>)
    requires Inv(s) && s.threads[MASTER].Outside?
    ensures Inv(Step(s, Add(checks)))
  {
    AddSum(multiset(s.queue), multiset(checks), Flying(s.threads), s.finished);
    assert multiset(s.queue + checks) == multiset(s.queue) + multiset(checks);
    var s' := Step(s, Add(checks));
    assert AllGood(s'.added) ==> AllGood(s.added) by {
      forall c | c in s.added ensures c in s'.added {
      }
    }
    forall i | 0 <= i < |s'.threads| ensures PhaseOk(s'.threads[i], s'.added) {
      assert PhaseOk(s.threads[i], s.added);
    }
  }

  lemma AddSum(q: multiset<Check>, c: multiset<Check>, f: multiset<Check>, d: multiset<Check>)
    ensures q + f + d + c == (q + c) + f + d
  {
  }

  /** Every step of every thread keeps the invariant. */
  lemma StepInv(s: State, e: Event)
    requires Inv(s) && Enabled(s, e)
    ensures Inv(Step(s, e))
  {
    match e
    case Enter(t) =>
      UpdateCounts(s.threads, t, Entering);
      SameBatch(s.threads, t, Entering);
    case Lock(t) =>
      TakeLockInv(s, t);
      ProceedInv(TakeLock(s, t), t);
    case Wake(t) =>
      TakeLockInv(s, t);
      ProceedInv(TakeLock(s, t), t);
    case RunOne(t) => RunOneInv(s, t);
    case Add(checks) => AddInv(s, checks);
    case Notify(t) => MoveOn(s, t, Sleeping(true));
  }

  lemma {:induction false} RunInv(s: State, events: seq<Event>)
    requires Inv(s) && CanRun(s, events)
    ensures Inv(Run(s, events))
    decreases |events|
  {
    if events != [] {
      StepInv(s, events[0]);
      RunInv(Step(s, events[0]), events[1..]);
    }
  }

  /**
   In every interleaving, with any number of workers, each Wait answers true exactly
   when every check added since the previous Wait is good; no check is lost or taken
   twice; and a master asleep has been signalled or waits for work in flight.
   */
  lemma EveryRun(s: State, events: seq<Event>)
    requires Start(s) && CanRun(s, events)
    ensures var s' := Run(s, events);
            && (forall i :: 0 <= i < |s'.answers| ==> s'.answers[i].0 == s'.answers[i].1)
            && s'.added == multiset(s'.queue) + Flying(s'.threads) + s'.finished
            && s'.nTodo == |s'.queue| + |Flying(s'.threads)|
            && |s'.threads| > 0 && (s'.threads[MASTER].Sleeping? && s'.nTodo == 0 ==> s'.threads[MASTER].signalled)
  {
    StartInv(s);
    RunInv(s, events);
  }

  // ---------- no deadlock ----------

  ghost predicate Resting(s: State) {
    forall t :: 0 <= t < |s.threads| ==> !s.threads[t].Holding?
  }

  lemma ProceedRests(s: State, t: nat)
    requires t < |s.threads| && forall i :: 0 <= i < |s.threads| && i != t ==> !s.threads[i].Holding?
    ensures Resting(Proceed(s, t))
  {
    assert Proceed(s, t).threads == s.threads[t := Proceed(s, t).threads[t]];
  }

  lemma StepRests(s: State, e: Event)
    requires Resting(s) && Enabled(s, e)
    ensures Resting(Step(s, e))
  {
    hide Proceed;
    if e.Lock? || e.Wake? {
      ProceedRests(TakeLock(s, e.t), e.t);
    }
  }

  /** Work a thread still has before it rests, if nothing more is queued. */
  function Weight(p: Phase): int {
    match p
    case Outside => 2
    case Entering => 1
    case Holding => 0
    case Sleeping(signalled) => if signalled then 1 else 0
    case Working(batch, ran, _) => 2 * |batch| - ran + 2
    case Done(batch, _) => |batch| + 1
  }

  ghost function Weigh(threads: seq<Phase>): int {
    if threads == [] then 0 else Weight(threads[0]) + Weigh(threads[1..])
  }

  lemma {:induction false} WeighUpdate(threads: seq<Phase>, t: nat, p: Phase)
    requires t < |threads|
    ensures Weigh(threads[t := p]) == Weigh(threads) - Weight(threads[t]) + Weight(p)
  {
    if t == 0 {
      assert threads[0 := p][1..] == threads[1..];
    } else {
      WeighUpdate(threads[1..], t - 1, p);
      assert threads[t := p][1..] == threads[1..][t - 1 := p];
    }
  }

  lemma {:induction false} WeighPositive(threads: seq<Phase>, added: multiset<Check>)
    requires forall t :: 0 <= t < |threads| ==> PhaseOk(threads[t], added)
    ensures Weigh(threads) >= 0
  {
    if threads != [] {
      assert PhaseOk(threads[0], added);
      forall t | 0 <= t < |threads[1..]| ensures PhaseOk(threads[1..][t], added) {
        assert threads[1..][t] == threads[t + 1];
      }
      WeighPositive(threads[1..], added);
    }
  }

  /** A bound on the steps left, whatever their order. */
  ghost function Remaining(s: State): int {
    4 * |s.queue| + Weigh(s.threads)
  }

  ghost predicate Waiting(s: State) {
    |s.threads| > 0 && !s.threads[MASTER].Outside?
  }

  /** Has the Wait that was going on in `s` returned in `s'`? */
  ghost predicate Returned(s: State, s': State) {
    |s'.threads| > 0 && s'.threads[MASTER].Outside? && |s'.answers| == |s.answers| + 1
  }

  lemma ProceedProgress(s: State, t: nat)
    requires Inv(s) && t < |s.threads| && s.threads[t].Holding?
    ensures var s' := Proceed(s, t);
            || (t == MASTER && Returned(s, s'))
            || (s'.answers == s.answers && Remaining(s') <= Remaining(s)
                && |s'.threads| == |s.threads| && !s'.threads[t].Outside?
                && forall i :: 0 <= i < |s.threads| && i != t ==> s'.threads[i] == s.threads[i])
  {
    WeighUpdate(s.threads, t, Proceed(s, t).threads[t]);
  }

  lemma TakeLockProgress(s: State, t: nat)
    requires Inv(s) && t < |s.threads|
    requires s.threads[t].Done? || s.threads[t].Entering? || s.threads[t] == Sleeping(true)
    ensures var s' := TakeLock(s, t);
            && Remaining(s') < Remaining(s) && s'.answers == s.answers && |s'.threads| == |s.threads|
            && (s'.threads[MASTER].Outside? <==> s.threads[MASTER].Outside?)
  {
    assert PhaseOk(s.threads[t], s.added);
    if s.threads[t].Done? {
      if s.threads[MASTER].Sleeping? {
        WeighUpdate(s.threads, MASTER, Sleeping(true));
      }
      var threads := if s.nTodo - |s.threads[t].batch| == 0 && t != MASTER then Signal(s.threads) else s.threads;
      assert threads[t] == s.threads[t];
      WeighUpdate(threads, t, Holding);
    } else {
      WeighUpdate(s.threads, t, Holding);
    }
  }

  ghost predicate Nearer(s: State, s': State) {
    Returned(s, s') || (Waiting(s') && s'.answers == s.answers && Remaining(s') < Remaining(s))
  }

  /** Steps of a schedule in which nobody wakes without having been notified and no new Wait begins. */
  predicate Quiet(s: State, e: Event) {
    Enabled(s, e) &&
    match e
    case Enter(t) => t != MASTER
    case Lock(_) => true
    case Wake(t) => s.threads[t].signalled
    case RunOne(_) => true
    case Add(_) => false
    case Notify(_) => false
  }

  lemma LockNearer(s: State, t: nat)
    requires Inv(s) && Waiting(s) && t < |s.threads|
    requires s.threads[t].Done? || s.threads[t].Entering? || s.threads[t] == Sleeping(true)
    ensures Nearer(s, Proceed(TakeLock(s, t), t))
  {
    hide Proceed, TakeLock, Inv, Remaining;
    TakeLockProgress(s, t);
    TakeLockInv(s, t);
    ProceedProgress(TakeLock(s, t), t);
  }

  /** While a Wait is on, every such step, by whichever thread, brings its return nearer. */
  lemma EveryStepNearer(s: State, e: Event)
    requires Inv(s) && Waiting(s) && Quiet(s, e)
    ensures Nearer(s, Step(s, e))
  {
    hide Proceed, TakeLock;
    match e
    case Enter(t) => OutsideNearer(s, e);
    case Lock(t) => LockNearer(s, t);
    case Wake(t) => LockNearer(s, t);
    case RunOne(t) => OutsideNearer(s, e);
  }

  /** A step outside the lock. */
  lemma OutsideNearer(s: State, e: Event)
    requires Inv(s) && Waiting(s) && Quiet(s, e) && (e.Enter? || e.RunOne?)
    ensures Nearer(s, Step(s, e))
  {
    hide Proceed, TakeLock;
    if e.RunOne? {
      assert PhaseOk(s.threads[e.t], s.added);
    }
    WeighUpdate(s.threads, e.t, Step(s, e).threads[e.t]);
  }

  /** While a Wait is on, some thread can take such a step: a master asleep with nothing in flight has been notified. */
  lemma NextStep(s: State) returns (e: Event)
    requires Inv(s) && Resting(s) && Waiting(s)
    ensures Quiet(s, e) && Nearer(s, Step(s, e))
  {
    if t: nat :| t < |s.threads| && s.threads[t].Working? {
      e := RunOne(t);
    } else if t: nat :| t < |s.threads| && s.threads[t].Done? {
      e := Lock(t);
    } else if s.threads[MASTER].Entering? {
      e := Lock(MASTER);
    } else {
      NothingFlying(s.threads);
      e := Wake(MASTER);
    }
    EveryStepNearer(s, e);
  }

  lemma {:induction false} NothingFlying(threads: seq<Phase>)
    requires forall t :: 0 <= t < |threads| ==> !threads[t].Working? && !threads[t].Done?
    ensures Flying(threads) == multiset{}
  {
    if threads != [] {
      NothingFlying(threads[1..]);
    }
  }

  ghost predicate QuietRun(s: State, events: seq<Event>)
    ensures QuietRun(s, events) ==> CanRun(s, events)
    decreases |events|
  {
    events == [] || (Quiet(s, events[0]) && QuietRun(Step(s, events[0]), events[1..]))
  }

  lemma StaysOutside(s: State, e: Event)
    requires |s.threads| > 0 && s.threads[MASTER].Outside? && Quiet(s, e)
    ensures var s' := Step(s, e); |s'.threads| > 0 && s'.threads[MASTER].Outside? && s'.answers == s.answers
  {
    hide Proceed, TakeLock;
    if e.Lock? || e.Wake? {
      LockOutside(s, e.t);
    }
  }

  lemma LockOutside(s: State, t: nat)
    requires 0 < t < |s.threads| && s.threads[MASTER].Outside?
    requires s.threads[t].Entering? || s.threads[t].Done? || s.threads[t].Sleeping?
    ensures var s1 := TakeLock(s, t);
      && |s1.threads| == |s.threads| && s1.threads[t].Holding? && s1.threads[MASTER].Outside? && s1.answers == s.answers
      && var s' := Proceed(s1, t);
         |s'.threads| == |s.threads| && s'.threads[MASTER].Outside? && s'.answers == s.answers
  {
    hide BatchSize, Sharers;
    assert Signal(s.threads)[MASTER].Outside?;
  }

  lemma {:induction false} StaysReturned(s: State, events: seq<Event>)
    requires |s.threads| > 0 && s.threads[MASTER].Outside? && QuietRun(s, events)
    ensures var s' := Run(s, events); |s'.threads| > 0 && s'.threads[MASTER].Outside? && s'.answers == s.answers
    decreases |events|
  {
    if events != [] {
      StaysOutside(s, events[0]);
      StaysReturned(Step(s, events[0]), events[1..]);
    }
  }

  ghost predicate CanMove(s: State) {
    exists e :: Quiet(s, e)
  }

  /**
   Every schedule without spurious wake-ups makes a Wait return: however the threads are
   scheduled, and whatever workers still start, the Wait has returned or is still on after at
   most Remaining(s) steps, and while it is on some thread can go on.
   */
  lemma {:induction false} WaitReturns(s: State, events: seq<Event>)
    requires Inv(s) && Resting(s) && Waiting(s) && QuietRun(s, events)
    ensures var s' := Run(s, events);
            if Waiting(s') then
              |events| <= Remaining(s) - Remaining(s') <= Remaining(s) && s'.answers == s.answers && CanMove(s')
            else Returned(s, s')
    decreases |events|
  {
    if events == [] {
      var e := NextStep(s);
      WeighPositive(s.threads, s.added);
    } else {
      var e, s1 := events[0], Step(s, events[0]);
      EveryStepNearer(s, e);
      StepInv(s, e);
      StepRests(s, e);
      if Waiting(s1) {
        WaitReturns(s1, events[1..]);
      } else {
        StaysReturned(s1, events[1..]);
      }
    }
  }

  lemma {:induction false} RunRests(s: State, events: seq<Event>)
    requires Resting(s) && CanRun(s, events)
    ensures Resting(Run(s, events))
    decreases |events|
  {
    if events != [] {
      StepRests(s, events[0]);
      RunRests(Step(s, events[0]), events[1..]);
    }
  }

  /** So in every run of the queue, with any history, spurious wake-ups included, before the Wait. */
  lemma EveryWaitReturns(s: State, before: seq<Event>, events: seq<Event>)
    requires Start(s) && CanRun(s, before) && Waiting(Run(s, before)) && QuietRun(Run(s, before), events)
    ensures var now, after := Run(s, before), Run(Run(s, before), events);
            if Waiting(after) then |events| <= Remaining(now) && after.answers == now.answers && CanMove(after)
            else Returned(now, after)
  {
    StartInv(s);
    RunInv(s, before);
    RunRests(s, before);
    WaitReturns(Run(s, before), events);
  }

  /** From every reachable state of a Wait there is such a schedule on which it returns, within the bound. */
  lemma {:induction false} WaitCanReturn(s: State) returns (events: seq<Event>)
    requires Inv(s) && Resting(s) && Waiting(s)
    ensures QuietRun(s, events) && Returned(s, Run(s, events)) && |events| <= Remaining(s) + 1
    decreases Remaining(s)
  {
    var e := NextStep(s);
    var s' := Step(s, e);
    StepInv(s, e);
    StepRests(s, e);
    WeighPositive(s.threads, s.added);
    if Returned(s, s') {
      events := [e];
      assert QuietRun(s', []) && Run(s', []) == s';
    } else {
      var rest := WaitCanReturn(s');
      events := [e] + rest;
    }
  }
}
