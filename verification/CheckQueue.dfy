/**
 The queue of script checks shared by one master and any number of workers. Its critical
 sections are methods on the shared fields; the interleavings of all threads are runs of a
 transition system made of those sections and of the batches executed outside the lock.
 */
module CheckQueues {
  import Powers

  // A check, and what calling it returns.
  type Check = nat
  type Verdict = Check -> bool

  predicate AllTrue(eval: Verdict, checks: seq<Check>) {
    forall c | c in checks :: eval(c)
  }

  /* ----- The shared fields and the critical sections ----- */

  datatype Shared = Shared(queue: seq<Check>, nIdle: int, nTotal: int, fAllOk: bool, nTodo: int)

  const INITIAL := Shared([], 0, 0, true, 0)

  // How a pass through the inner loop of Loop ends.
  datatype Outcome = Return(result: bool) | Sleep | Work(batch: seq<Check>, ok: bool)

  function BatchSize(q: Shared, limit: nat): int {
    var parts := q.nTotal + q.nIdle + 1;
    var share := if parts <= 0 then 0 else |q.queue| / parts;
    var capped := if limit < share then limit else share;
    if capped < 1 then 1 else capped
  }

  // The last n checks, last first.
  function Popped(queue: seq<Check>, n: nat): seq<Check> {
    if n == 0 || queue == [] then []
    else [queue[|queue| - 1]] + Popped(queue[..|queue| - 1], n - 1)
  }

  function Left(queue: seq<Check>, n: int): seq<Check> {
    if 0 <= n <= |queue| then queue[..|queue| - n] else []
  }

  function CleanUp(q: Shared, n: int, ok: bool): Shared {
    q.(fAllOk := q.fAllOk && ok, nTodo := q.nTodo - n)
  }

  function Proceed(q: Shared, fMaster: bool, limit: nat): (Shared, Outcome) {
    if q.queue == [] then
      if fMaster && q.nTodo == 0 then (q.(nTotal := q.nTotal - 1, fAllOk := true), Return(q.fAllOk))
      else (q.(nIdle := q.nIdle + 1), Sleep)
    else
      var n := BatchSize(q, limit);
      (q.(queue := Left(q.queue, n)), Work(Popped(q.queue, n), q.fAllOk))
  }

  predicate Idle(q: Shared) {
    q.nTotal == q.nIdle && q.nTodo == 0 && q.fAllOk
  }

  // Whom Add wakes among the workers that wait.
  datatype Notify = NoOne | One | All

  function AddNotifies(count: nat): Notify {
    if count == 0 then NoOne else if count == 1 then One else All
  }

  // A batch is never empty and never larger than the queue or the limit. It is the largest that leaves as much for
  // each other thread, the idle ones counted twice, unless that is less than one check.
  lemma BatchFits(q: Shared, limit: nat)
    requires q.queue != [] && q.nTotal >= 0 && q.nIdle >= 0
    ensures 1 <= BatchSize(q, limit) <= |q.queue|
    ensures var n, parts := BatchSize(q, limit), q.nTotal + q.nIdle + 1;
            && (n == 1 || (n <= limit && n * parts <= |q.queue|))
            && (n >= limit || (n + 1) * parts > |q.queue|)
  {
    var parts := q.nTotal + q.nIdle + 1;
    Powers.ShareFits(|q.queue|, parts);
    Powers.DivMod(|q.queue|, parts);
    var share := |q.queue| / parts;
    BatchBounds(BatchSize(q, limit), share, parts, |q.queue|, limit);
  }

  lemma BatchBounds(n: int, share: nat, parts: nat, size: nat, limit: nat)
    requires parts >= 1 && share * parts <= size < share * parts + parts
    requires n == 1 || n == limit < share || n == share
    requires n == 1 ==> share <= 1 || limit <= 1
    ensures n == 1 || n > share || n * parts <= size
    ensures n >= limit || n < share || (n + 1) * parts > size
  {
    if n < share { Powers.MulMono(n, share, parts); }
  }

  lemma {:induction false} PoppedIsTail(queue: seq<Check>, n: nat)
    requires n <= |queue|
    ensures |Popped(queue, n)| == n
    ensures multiset(Left(queue, n)) + multiset(Popped(queue, n)) == multiset(queue)
  {
    if n == 0 {
      assert queue[..|queue|] == queue;
    } else {
      var init, last := queue[..|queue| - 1], queue[|queue| - 1];
      PoppedIsTail(init, n - 1);
      assert queue == init + [last];
      assert Left(init, n - 1) == Left(queue, n);
    }
  }

  lemma {:induction false} PoppedStep(queue: seq<Check>, i: nat)
    requires i < |queue|
    ensures Popped(queue, i + 1) == Popped(queue, i) + [queue[|queue| - 1 - i]]
  {
    if i > 0 { PoppedStep(queue[..|queue| - 1], i - 1); }
  }

  class CheckQueue {
    const nBatchSize: nat
    var queue: seq<Check>
    var nIdle: int
    var nTotal: int
    var fAllOk: bool
    var nTodo: int

    ghost function Model(): Shared
      reads this
    {
      Shared(queue, nIdle, nTotal, fAllOk, nTodo)
    }

    constructor (nBatchSize: nat)
      ensures Model() == INITIAL && this.nBatchSize == nBatchSize
    {
      this.nBatchSize := nBatchSize;
      queue, nIdle, nTotal, fAllOk, nTodo := [], 0, 0, true, 0;
    }

    // The start of a critical section of Loop: the results of the last batch, or the first pass.
    method Begin(fMaster: bool, nNow: nat, fOk: bool) returns (notifyMaster: bool)
      modifies this
      ensures Model() == if nNow > 0 then CleanUp(old(Model()), nNow, fOk) else old(Model()).(nTotal := old(nTotal) + 1)
      ensures notifyMaster <==> nNow > 0 && nTodo == 0 && !fMaster
    {
      notifyMaster := false;
      if nNow > 0 {
        fAllOk := fAllOk && fOk;
        nTodo := nTodo - nNow;
        if nTodo == 0 && !fMaster {
          notifyMaster := true;
        }
      } else {
        nTotal := nTotal + 1;
      }
    }

    method WakeUp()
      modifies this`nIdle
      ensures Model() == old(Model()).(nIdle := old(nIdle) - 1)
    {
      nIdle := nIdle - 1;
    }

    method TakeBatch() returns (checks: seq<Check>)
      requires queue != [] && nTotal >= 0 && nIdle >= 0
      modifies this`queue
      ensures checks == Popped(old(queue), BatchSize(old(Model()), nBatchSize))
      ensures queue == Left(old(queue), BatchSize(old(Model()), nBatchSize))
      ensures 1 <= |checks| <= |old(queue)|
    {
      BatchFits(Model(), nBatchSize);
      ghost var before := queue;
      var share := |queue| / (nTotal + nIdle + 1);
      var capped := if nBatchSize < share then nBatchSize else share;
      var nNow := if capped < 1 then 1 else capped;
      checks := [];
      for i := 0 to nNow
        invariant checks == Popped(before, i) && queue == before[..|before| - i]
      {
        PoppedStep(before, i);
        checks := checks + [queue[|queue| - 1]];
        queue := queue[..|queue| - 1];
      }
      PoppedIsTail(before, nNow);
    }

    method Continue(fMaster: bool) returns (o: Outcome)
      requires nTotal >= 0 && nIdle >= 0
      modifies this
      ensures (Model(), o) == Proceed(old(Model()), fMaster, nBatchSize)
    {
      if queue == [] {
        if fMaster && nTodo == 0 {
          nTotal := nTotal - 1;
          o := Return(fAllOk);
          fAllOk := true;
        } else {
          nIdle := nIdle + 1;
          o := Sleep;
        }
      } else {
        var checks := TakeBatch();
        o := Work(checks, fAllOk);
      }
    }

    method IsIdle() returns (idle: bool)
      ensures idle <==> Idle(Model())
    {
      idle := nTotal == nIdle && nTodo == 0 && fAllOk;
    }

    method Add(checks: seq<Check>) returns (notify: Notify)
      modifies this
      ensures Model() == old(Model()).(queue := old(queue) + checks, nTodo := old(nTodo) + |checks|)
      ensures notify == AddNotifies(|checks|)
    {
      for i := 0 to |checks|
        invariant queue == old(queue) + checks[..i]
        invariant Model() == old(Model()).(queue := queue)
      {
        queue := queue + [checks[i]];
      }
      assert checks[..|checks|] == checks;
      nTodo := nTodo + |checks|;
      notify := if |checks| == 1 then One else if |checks| > 1 then All else NoOne;
    }
  }

  // Executes a batch outside the lock; a check is not called once one is known to fail.
  method RunBatch(eval: Verdict, checks: seq<Check>, start: bool) returns (ok: bool)
    ensures ok <==> start && AllTrue(eval, checks)
  {
    ok := start;
    for i := 0 to |checks|
      invariant ok <==> start && AllTrue(eval, checks[..i])
    {
      assert checks[..i + 1] == checks[..i] + [checks[i]];
      if ok {
        ok := eval(checks[i]);
      }
    }
    assert checks[..|checks|] == checks;
  }

  /* ----- The interleavings ----- */

  // Where a thread is while the lock is free.
  datatype Phase =
    | Outside | Waiting(signalled: bool) | Running(batch: seq<Check>, ok: bool) | Finished(batch: seq<Check>, ok: bool)

  // Thread 0 is the master. `added` and `completed` are the checks since the last return of Wait;
  // the log holds what each Wait returned and the checks it waited for.
  datatype State = State(shared: Shared, threads: seq<Phase>, added: seq<Check>, completed: seq<Check>,
      log: seq<(bool, seq<Check>)>)

  // The steps: a thread enters Loop, wakes up, executes its batch, comes back with it, or the master adds checks
  // and wakes some workers.
  datatype Step =
    | Enter(t: nat) | Wake(t: nat) | Execute(t: nat) | Finish(t: nat) | Add(checks: seq<Check>, woken: set<nat>)

  datatype Setting = Setting(eval: Verdict, limit: nat)

  function Start(workers: nat): State {
    State(INITIAL, seq(workers + 1, k => Outside), [], [], [])
  }

  function Blocked(threads: seq<Phase>): set<nat> {
    set t: nat | 0 < t < |threads| && threads[t] == Waiting(false)
  }

  // Whom notify_one or notify_all may pick among those that wait unnotified.
  predicate MayWake(notify: Notify, blocked: set<nat>, woken: set<nat>) {
    match notify
    case NoOne => woken == {}
    case One => woken <= blocked && |woken| == (if blocked == {} then 0 else 1)
    case All => woken == blocked
  }

  // A thread may also wake up without having been notified.
  predicate Enabled(s: State, step: Step) {
    match step
    case Enter(t) => t < |s.threads| && s.threads[t].Outside?
    case Wake(t) => t < |s.threads| && s.threads[t].Waiting?
    case Execute(t) => t < |s.threads| && s.threads[t].Running?
    case Finish(t) => t < |s.threads| && s.threads[t].Finished?
    case Add(checks, woken) =>
      |s.threads| > 0 && s.threads[0].Outside? && MayWake(AddNotifies(|checks|), Blocked(s.threads), woken)
  }

  function Signal(threads: seq<Phase>, woken: set<nat>): seq<Phase> {
    seq(|threads|, t requires 0 <= t < |threads| =>
      if t in woken && threads[t].Waiting? then Waiting(true) else threads[t])
  }

  // A thread inside its critical section: counted, not waiting, with nothing in hand.
  const ACTIVE := Running([], true)

  // The start of the critical section of thread t: what it brings along.
  function Entered(s: State, t: nat): State
    requires t < |s.threads|
  {
    s.(shared := s.shared.(nTotal := s.shared.nTotal + 1), threads := s.threads[t := ACTIVE])
  }

  function Woken(s: State, t: nat): State
    requires t < |s.threads|
  {
    s.(shared := s.shared.(nIdle := s.shared.nIdle - 1), threads := s.threads[t := ACTIVE])
  }

  function Handed(s: State, t: nat): State
    requires t < |s.threads| && s.threads[t].Finished?
  {
    var p := s.threads[t];
    s.(shared := CleanUp(s.shared, |p.batch|, p.ok), completed := s.completed + p.batch,
       threads := s.threads[t := ACTIVE])
  }

  // Whoever completes the last check tells the master.
  function Reported(s: State, t: nat): State
    requires t < |s.threads| && s.threads[t].Finished?
  {
    var told := s.shared.nTodo - |s.threads[t].batch| == 0 && t != 0;
    Handed(if told then s.(threads := Signal(s.threads, {0})) else s, t)
  }

  // The rest of it.
  function Advance(g: Setting, s: State, t: nat): State
    requires t < |s.threads|
  {
    var (q, o) := Proceed(s.shared, t == 0, g.limit);
    match o
    case Return(r) => State(q, s.threads[t := Outside], [], [], s.log + [(r, s.added)])
    case Sleep => s.(shared := q, threads := s.threads[t := Waiting(false)])
    case Work(batch, ok) => s.(shared := q, threads := s.threads[t := Running(batch, ok)])
  }

  function Next(g: Setting, s: State, step: Step): State
    requires Enabled(s, step)
  {
    match step
    case Enter(t) => Advance(g, Entered(s, t), t)
    case Wake(t) => Advance(g, Woken(s, t), t)
    case Execute(t) =>
      var p := s.threads[t];
      s.(threads := s.threads[t := Finished(p.batch, p.ok && AllTrue(g.eval, p.batch))])
    case Finish(t) => Advance(g, Reported(s, t), t)
    case Add(checks, woken) =>
      s.(shared := s.shared.(queue := s.shared.queue + checks, nTodo := s.shared.nTodo + |checks|),
         added := s.added + checks, threads := Signal(s.threads, woken))
  }

  predicate IsRun(g: Setting, s: State, steps: seq<Step>)
    decreases |steps|
  {
    steps != [] ==> Enabled(s, steps[0]) && IsRun(g, Next(g, s, steps[0]), steps[1..])
  }

  function After(g: Setting, s: State, steps: seq<Step>): State
    requires IsRun(g, s, steps)
    decreases |steps|
  {
    if steps == [] then s else After(g, Next(g, s, steps[0]), steps[1..])
  }

  /* ----- Counting over the threads ----- */

  function Sum(threads: seq<Phase>, f: Phase -> int): int {
    if threads == [] then 0 else f(threads[0]) + Sum(threads[1..], f)
  }

  lemma {:induction false} SumUpdate(threads: seq<Phase>, t: nat, p: Phase, f: Phase -> int)
    requires t < |threads|
    ensures Sum(threads[t := p], f) == Sum(threads, f) - f(threads[t]) + f(p)
  {
    if t == 0 {
      assert threads[0 := p][1..] == threads[1..];
    } else {
      assert threads[t := p][1..] == threads[1..][t - 1 := p];
      SumUpdate(threads[1..], t - 1, p, f);
    }
  }

  lemma {:induction false} SumSame(a: seq<Phase>, b: seq<Phase>, f: Phase -> int)
    requires |a| == |b| && forall t | 0 <= t < |a| :: f(a[t]) == f(b[t])
    ensures Sum(a, f) == Sum(b, f)
  {
    if a != [] {
      assert forall t | 0 <= t < |a| - 1 :: a[1..][t] == a[t + 1] && b[1..][t] == b[t + 1];
      SumSame(a[1..], b[1..], f);
    }
  }

  lemma {:induction false} SumNat(threads: seq<Phase>, f: Phase -> int)
    requires forall p: Phase :: f(p) >= 0
    ensures Sum(threads, f) >= 0
  {
    if threads != [] { SumNat(threads[1..], f); }
  }

  lemma {:induction false} SumZero(threads: seq<Phase>, f: Phase -> int)
    requires forall t | 0 <= t < |threads| :: f(threads[t]) == 0
    ensures Sum(threads, f) == 0
  {
    if threads != [] { SumZero(threads[1..], f); }
  }

  function IsWaiting(p: Phase): int { if p.Waiting? then 1 else 0 }

  function IsInside(p: Phase): int { if p.Outside? then 0 else 1 }

  function InHand(p: Phase): int { |Held(p)| }

  function Held(p: Phase): seq<Check> {
    if p.Running? || p.Finished? then p.batch else []
  }

  ghost function InFlight(threads: seq<Phase>): multiset<Check> {
    if threads == [] then multiset{} else multiset(Held(threads[0])) + InFlight(threads[1..])
  }

  lemma {:induction false} InFlightUpdate(threads: seq<Phase>, t: nat, p: Phase)
    requires t < |threads|
    ensures InFlight(threads[t := p]) + multiset(Held(threads[t])) == InFlight(threads) + multiset(Held(p))
  {
    if t == 0 {
      assert threads[0 := p][1..] == threads[1..];
    } else {
      assert threads[t := p][1..] == threads[1..][t - 1 := p];
      InFlightUpdate(threads[1..], t - 1, p);
      Shuffled(multiset(Held(threads[0])), InFlight(threads[1..]), InFlight(threads[1..][t - 1 := p]),
          multiset(Held(threads[t])), multiset(Held(p)));
    }
  }

  lemma Shuffled(head: multiset<Check>, rest: multiset<Check>, rest': multiset<Check>, a: multiset<Check>,
      b: multiset<Check>)
    requires rest' + a == rest + b
    ensures head + rest' + a == head + rest + b
  {
    assert head + rest' + a == head + (rest' + a);
    assert head + rest + b == head + (rest + b);
  }

  lemma {:induction false} InFlightSame(a: seq<Phase>, b: seq<Phase>)
    requires |a| == |b| && forall t | 0 <= t < |a| :: Held(a[t]) == Held(b[t])
    ensures InFlight(a) == InFlight(b)
  {
    if a != [] {
      assert forall t | 0 <= t < |a| - 1 :: a[1..][t] == a[t + 1] && b[1..][t] == b[t + 1];
      InFlightSame(a[1..], b[1..]);
    }
  }

  /* ----- What every interleaving keeps ----- */

  // The counters say what the threads do; nTodo is what is queued or in some hand.
  ghost predicate Counted(s: State) {
    && s.shared.nIdle == Sum(s.threads, IsWaiting)
    && s.shared.nTotal == Sum(s.threads, IsInside)
    && s.shared.nTodo == |s.shared.queue| + Sum(s.threads, InHand)
  }

  // Every check added since the last Wait is in exactly one place.
  ghost predicate Conserved(s: State) {
    multiset(s.added) == multiset(s.shared.queue) + multiset(s.completed) + InFlight(s.threads)
  }

  predicate PhaseOk(g: Setting, fAllOk: bool, p: Phase) {
    && (p.Running? && !p.ok ==> !fAllOk && p.batch != [])
    && (p.Finished? && p.ok ==> AllTrue(g.eval, p.batch))
    && (p.Finished? && !p.ok ==> p.batch != [] && (!fAllOk || !AllTrue(g.eval, p.batch)))
  }

  ghost predicate Judged(g: Setting, s: State) {
    && (s.shared.fAllOk <==> AllTrue(g.eval, s.completed))
    && (forall t | 0 <= t < |s.threads| :: PhaseOk(g, s.shared.fAllOk, s.threads[t]))
  }

  predicate MasterOk(s: State) {
    && |s.threads| > 0
    && (s.threads[0].Waiting? ==> s.shared.queue == [])
    && (s.threads[0] == Waiting(false) ==> s.shared.nTodo > 0)
  }

  predicate LogOk(g: Setting, log: seq<(bool, seq<Check>)>) {
    forall e | e in log :: e.0 <==> AllTrue(g.eval, e.1)
  }

  ghost predicate Inv(g: Setting, s: State) {
    Counted(s) && Conserved(s) && Judged(g, s) && MasterOk(s) && LogOk(g, s.log)
  }

  // No thread is inside a critical section.
  predicate LockFree(threads: seq<Phase>) {
    forall t | 0 <= t < |threads| && (threads[t].Running? || threads[t].Finished?) :: threads[t].batch != []
  }

  lemma StartIsOk(g: Setting, workers: nat)
    ensures Inv(g, Start(workers)) && LockFree(Start(workers).threads)
  {
    var s := Start(workers);
    SumZero(s.threads, IsWaiting);
    SumZero(s.threads, IsInside);
    SumZero(s.threads, InHand);
    NoneInFlight(s.threads);
  }

  lemma {:induction false} NoneInFlight(threads: seq<Phase>)
    requires Sum(threads, InHand) == 0
    ensures InFlight(threads) == multiset{} && forall t | 0 <= t < |threads| :: Held(threads[t]) == []
  {
    if threads != [] {
      SumNat(threads[1..], InHand);
      NoneInFlight(threads[1..]);
      assert forall t | 1 <= t < |threads| :: threads[t] == threads[1..][t - 1];
    }
  }

  lemma CountsUpdate(threads: seq<Phase>, t: nat, p: Phase)
    requires t < |threads|
    ensures var threads' := threads[t := p];
            && Sum(threads', IsWaiting) == Sum(threads, IsWaiting) - IsWaiting(threads[t]) + IsWaiting(p)
            && Sum(threads', IsInside) == Sum(threads, IsInside) - IsInside(threads[t]) + IsInside(p)
            && Sum(threads', InHand) == Sum(threads, InHand) - InHand(threads[t]) + InHand(p)
            && InFlight(threads') + multiset(Held(threads[t])) == InFlight(threads) + multiset(Held(p))
            && (Held(threads[t]) == [] ==> InFlight(threads') == InFlight(threads) + multiset(Held(p)))
            && (Held(p) == [] ==> InFlight(threads') + multiset(Held(threads[t])) == InFlight(threads))
  {
    SumUpdate(threads, t, p, IsWaiting);
    SumUpdate(threads, t, p, IsInside);
    SumUpdate(threads, t, p, InHand);
    InFlightUpdate(threads, t, p);
  }

  lemma CountsSignalled(threads: seq<Phase>, woken: set<nat>)
    ensures var threads' := Signal(threads, woken);
            && Sum(threads', IsWaiting) == Sum(threads, IsWaiting) && Sum(threads', IsInside) == Sum(threads, IsInside)
            && Sum(threads', InHand) == Sum(threads, InHand) && InFlight(threads') == InFlight(threads)
  {
    var threads' := Signal(threads, woken);
    SumSame(threads', threads, IsWaiting);
    SumSame(threads', threads, IsInside);
    SumSame(threads', threads, InHand);
    InFlightSame(threads', threads);
  }

  lemma EnteredIsOk(g: Setting, s: State, t: nat)
    requires Inv(g, s) && t < |s.threads| && s.threads[t].Outside?
    ensures Inv(g, Entered(s, t))
  {
    hide Sum, InFlight, LogOk;
    CountsUpdate(s.threads, t, ACTIVE);
  }

  lemma WokenIsOk(g: Setting, s: State, t: nat)
    requires Inv(g, s) && t < |s.threads| && s.threads[t].Waiting?
    ensures Inv(g, Woken(s, t))
  {
    hide Sum, InFlight, LogOk;
    CountsUpdate(s.threads, t, ACTIVE);
  }

  lemma JudgedTogether(g: Setting, done: seq<Check>, batch: seq<Check>)
    ensures AllTrue(g.eval, done + batch) <==> AllTrue(g.eval, done) && AllTrue(g.eval, batch)
  {
    assert forall c :: c in done + batch <==> c in done || c in batch;
  }

  lemma SignalledIsOk(g: Setting, s: State, woken: set<nat>)
    requires Inv(g, s)
    ensures Inv(g, s.(threads := Signal(s.threads, woken)))
  {
    hide Sum, InFlight, LogOk;
    CountsSignalled(s.threads, woken);
  }

  lemma HandedIsOk(g: Setting, s: State, t: nat)
    requires Inv(g, s) && t < |s.threads| && s.threads[t].Finished?
    requires t == 0 || s.threads[0] != Waiting(false) || s.shared.nTodo - |s.threads[t].batch| != 0
    ensures Inv(g, Handed(s, t)) && Handed(s, t).shared.nTodo >= 0
  {
    hide Sum, InFlight, LogOk, AllTrue;
    JudgedTogether(g, s.completed, s.threads[t].batch);
    SumNat(s.threads[t := ACTIVE], InHand);
    CountsUpdate(s.threads, t, ACTIVE);
  }

  lemma ReportedIsOk(g: Setting, s: State, t: nat)
    requires Inv(g, s) && t < |s.threads| && s.threads[t].Finished?
    ensures Inv(g, Reported(s, t)) && Reported(s, t).shared.nTodo >= 0
  {
    hide Inv, Handed;
    if s.shared.nTodo - |s.threads[t].batch| == 0 && t != 0 {
      SignalledIsOk(g, s, {0});
      HandedIsOk(g, s.(threads := Signal(s.threads, {0})), t);
    } else {
      HandedIsOk(g, s, t);
    }
  }

  lemma CountsAreNat(s: State)
    requires Counted(s)
    ensures s.shared.nIdle >= 0 && s.shared.nTotal >= 0 && s.shared.nTodo >= 0
  {
    SumNat(s.threads, IsWaiting);
    SumNat(s.threads, IsInside);
    SumNat(s.threads, InHand);
  }

  // Wait returns the truth about exactly the checks added since the last one.
  lemma ReturnIsOk(g: Setting, s: State)
    requires Inv(g, s) && s.threads[0] == ACTIVE && s.shared.queue == [] && s.shared.nTodo == 0
    ensures s.shared.fAllOk <==> AllTrue(g.eval, s.added)
    ensures Inv(g, Advance(g, s, 0))
  {
    hide Sum, InFlight;
    NoneInFlight(s.threads);
    assert multiset(s.added) == multiset(s.completed);
    assert forall c :: c in s.added <==> c in multiset(s.added);
    assert forall c :: c in s.completed <==> c in multiset(s.completed);
    CountsUpdate(s.threads, 0, Outside);
  }

  lemma SleepIsOk(g: Setting, s: State, t: nat)
    requires Inv(g, s) && t < |s.threads| && s.threads[t] == ACTIVE && s.shared.queue == []
    requires t != 0 || s.shared.nTodo != 0
    ensures Inv(g, Advance(g, s, t))
  {
    hide Sum, InFlight, LogOk;
    CountsAreNat(s);
    CountsUpdate(s.threads, t, Waiting(false));
  }

  lemma WorkIsOk(g: Setting, s: State, t: nat)
    requires Inv(g, s) && t < |s.threads| && s.threads[t] == ACTIVE && s.shared.queue != []
    ensures Inv(g, Advance(g, s, t))
    ensures Advance(g, s, t).threads[t].Running? && Advance(g, s, t).threads[t].batch != []
  {
    hide Sum, InFlight, LogOk, BatchSize, Popped, Left;
    var n := BatchSize(s.shared, g.limit);
    CountsAreNat(s);
    assert 1 <= n <= |s.shared.queue| by { BatchFits(s.shared, g.limit); }
    PoppedIsTail(s.shared.queue, n);
    assert |Left(s.shared.queue, n)| == |s.shared.queue| - n by { LeftSize(s.shared.queue, n); }
    CountsUpdate(s.threads, t, Running(Popped(s.shared.queue, n), s.shared.fAllOk));
  }

  lemma LeftSize(queue: seq<Check>, n: nat)
    requires n <= |queue|
    ensures |Left(queue, n)| == |queue| - n
  {
  }

  lemma AdvanceIsOk(g: Setting, s: State, t: nat)
    requires Inv(g, s) && t < |s.threads| && s.threads[t] == ACTIVE && LockFree(s.threads[t := Outside])
    ensures Inv(g, Advance(g, s, t)) && LockFree(Advance(g, s, t).threads)
  {
    hide Inv;
    assert forall k | 0 <= k < |s.threads| && k != t :: s.threads[t := Outside][k] == s.threads[k];
    if s.shared.queue != [] {
      WorkIsOk(g, s, t);
    } else if t == 0 && s.shared.nTodo == 0 {
      ReturnIsOk(g, s);
    } else {
      SleepIsOk(g, s, t);
    }
  }

  lemma ExecuteIsOk(g: Setting, s: State, t: nat)
    requires Inv(g, s) && LockFree(s.threads) && t < |s.threads| && s.threads[t].Running?
    ensures var s' := Next(g, s, Execute(t)); Inv(g, s') && LockFree(s'.threads)
  {
    hide Sum, InFlight, LogOk, AllTrue;
    var p := s.threads[t];
    CountsUpdate(s.threads, t, Finished(p.batch, p.ok && AllTrue(g.eval, p.batch)));
    SameHand(InFlight(s.threads), InFlight(Next(g, s, Execute(t)).threads), multiset(p.batch));
  }

  lemma SameHand(a: multiset<Check>, b: multiset<Check>, held: multiset<Check>)
    requires b + held == a + held
    ensures a == b
  {
    assert a == a + held - held && b == b + held - held;
  }

  lemma AddIsOk(g: Setting, s: State, checks: seq<Check>, woken: set<nat>)
    requires Inv(g, s) && LockFree(s.threads) && Enabled(s, Add(checks, woken))
    ensures var s' := Next(g, s, Add(checks, woken)); Inv(g, s') && LockFree(s'.threads)
  {
    hide Sum, InFlight, LogOk, AllTrue, MayWake, Blocked;
    CountsSignalled(s.threads, woken);
    assert multiset(s.added + checks) == multiset(s.added) + multiset(checks);
    assert multiset(s.shared.queue + checks) == multiset(s.shared.queue) + multiset(checks);
  }

  lemma NextIsOk(g: Setting, s: State, step: Step)
    requires Inv(g, s) && LockFree(s.threads) && Enabled(s, step)
    ensures Inv(g, Next(g, s, step)) && LockFree(Next(g, s, step).threads)
  {
    hide Inv, Advance;
    match step
    case Enter(t) =>
      EnteredIsOk(g, s, t);
      AdvanceIsOk(g, Entered(s, t), t);
    case Wake(t) =>
      WokenIsOk(g, s, t);
      AdvanceIsOk(g, Woken(s, t), t);
    case Execute(t) => ExecuteIsOk(g, s, t);
    case Finish(t) =>
      ReportedIsOk(g, s, t);
      AdvanceIsOk(g, Reported(s, t), t);
    case Add(checks, woken) => AddIsOk(g, s, checks, woken);
  }

  lemma {:induction false} RunIsOk(g: Setting, s: State, steps: seq<Step>)
    requires Inv(g, s) && LockFree(s.threads) && IsRun(g, s, steps)
    ensures Inv(g, After(g, s, steps)) && LockFree(After(g, s, steps).threads)
    decreases |steps|
  {
    hide Inv, Next, LockFree;
    if steps != [] {
      NextIsOk(g, s, steps[0]);
      RunIsOk(g, Next(g, s, steps[0]), steps[1..]);
    }
  }

  /* ----- What it comes to, on every run from the start ----- */

  ghost predicate Reachable(g: Setting, s: State) {
    exists workers: nat, steps: seq<Step> :: IsRun(g, Start(workers), steps) && s == After(g, Start(workers), steps)
  }

  lemma ReachableIsOk(g: Setting, s: State)
    requires Reachable(g, s)
    ensures Inv(g, s) && LockFree(s.threads)
  {
    hide Inv, LockFree;
    var workers: nat, steps: seq<Step> :| IsRun(g, Start(workers), steps) && s == After(g, Start(workers), steps);
    StartIsOk(g, workers);
    RunIsOk(g, Start(workers), steps);
  }

  // nTodo is the length of the queue and of all batches in flight, and no thread pops an empty queue.
  lemma TodoIsWhatIsLeft(g: Setting, s: State)
    requires Reachable(g, s)
    ensures s.shared.nTodo == |s.shared.queue| + Sum(s.threads, InHand) >= 0
    ensures s.shared.queue != [] ==> 1 <= BatchSize(s.shared, g.limit) <= |s.shared.queue|
  {
    ReachableIsOk(g, s);
    CountsAreNat(s);
    if s.shared.queue != [] { BatchFits(s.shared, g.limit); }
  }

  // Every Wait that has returned gave true exactly when all checks added since the one before are true.
  lemma WaitTellsTheTruth(g: Setting, s: State, k: nat)
    requires Reachable(g, s) && k < |s.log|
    ensures s.log[k].0 <==> forall c | c in s.log[k].1 :: g.eval(c)
  {
    ReachableIsOk(g, s);
    assert s.log[k] in s.log;
  }

  // Before the first Add of a round the queue is idle: the assert of the control constructor holds.
  lemma IdleBetweenRounds(g: Setting, s: State)
    requires Reachable(g, s) && s.added == []
    ensures Idle(s.shared)
  {
    ReachableIsOk(g, s);
    NothingAdded(g, s);
    NoneInFlight(s.threads);
    SumAgree(s.threads, IsInside, IsWaiting);
  }

  // What the caller of IsIdle learns: every check added since the last Wait has been completed and is true.
  lemma IdleIff(g: Setting, s: State)
    requires Reachable(g, s)
    ensures Idle(s.shared) <==> multiset(s.completed) == multiset(s.added) && AllTrue(g.eval, s.added)
  {
    hide Sum, AllTrue;
    ReachableIsOk(g, s);
    CountsAreNat(s);
    SumNat(s.threads, InHand);
    InFlightSize(s.threads);
    if s.shared.nTodo == 0 {
      NoneInFlight(s.threads);
      assert forall t | 0 <= t < |s.threads| :: IsInside(s.threads[t]) == IsWaiting(s.threads[t]);
      SumAgree(s.threads, IsInside, IsWaiting);
    } else {
      assert |multiset(s.added)| == |multiset(s.shared.queue)| + |multiset(s.completed)| + |InFlight(s.threads)|;
    }
    if multiset(s.completed) == multiset(s.added) { SameVerdict(g.eval, s.completed, s.added); }
  }

  lemma SameVerdict(eval: Verdict, a: seq<Check>, b: seq<Check>)
    requires multiset(a) == multiset(b)
    ensures AllTrue(eval, a) <==> AllTrue(eval, b)
  {
    assert forall c :: (c in a <==> c in multiset(a)) && (c in b <==> c in multiset(b));
  }

  lemma {:induction false} SumAgree(threads: seq<Phase>, f: Phase -> int, f': Phase -> int)
    requires forall t | 0 <= t < |threads| :: f(threads[t]) == f'(threads[t])
    ensures Sum(threads, f) == Sum(threads, f')
  {
    if threads != [] { SumAgree(threads[1..], f, f'); }
  }

  lemma NothingAdded(g: Setting, s: State)
    requires Inv(g, s) && s.added == []
    ensures s.shared.nTodo == 0 && s.shared.fAllOk && Sum(s.threads, InHand) == 0
  {
    assert multiset(s.shared.queue) + multiset(s.completed) + InFlight(s.threads) == multiset{};
    assert |multiset(s.shared.queue)| == 0 && |multiset(s.completed)| == 0 && |InFlight(s.threads)| == 0;
    InFlightSize(s.threads);
  }

  lemma {:induction false} InFlightSize(threads: seq<Phase>)
    ensures |InFlight(threads)| == Sum(threads, InHand)
  {
    if threads != [] { InFlightSize(threads[1..]); }
  }

  // A master that waits and has not been notified leaves some worker with a batch.
  lemma WaitingMasterHasHelper(g: Setting, s: State) returns (t: nat)
    requires Reachable(g, s) && s.threads != [] && s.threads[0] == Waiting(false)
    ensures 0 < t < |s.threads| && Held(s.threads[t]) != []
  {
    ReachableIsOk(g, s);
    t := SomeoneHolds(s.threads);
  }

  lemma {:induction false} SomeoneHolds(threads: seq<Phase>) returns (t: nat)
    requires Sum(threads, InHand) > 0
    ensures t < |threads| && Held(threads[t]) != []
  {
    if Held(threads[0]) != [] {
      t := 0;
    } else {
      var k := SomeoneHolds(threads[1..]);
      t := k + 1;
    }
  }

  /* ----- Wait returns, whoever runs ----- */

  // A step of the threads themselves: not an Add and not a call of Wait.
  predicate IsInner(s: State, step: Step) {
    Enabled(s, step) && !step.Add? && (step.Enter? ==> step.t != 0)
  }

  // A wake-up without a notification.
  predicate IsSpurious(s: State, step: Step) {
    Enabled(s, step) && step.Wake? && !s.threads[step.t].signalled
  }

  predicate IsWork(s: State, step: Step) {
    IsInner(s, step) && !IsSpurious(s, step)
  }

  lemma WaitIsNeverStuck(g: Setting, s: State) returns (step: Step)
    requires Reachable(g, s) && s.threads != [] && !s.threads[0].Outside?
    ensures IsWork(s, step)
  {
    if s.threads[0] == Waiting(false) {
      var t := WaitingMasterHasHelper(g, s);
      step := if s.threads[t].Running? then Execute(t) else Finish(t);
    } else {
      step := if s.threads[0].Waiting? then Wake(0) else if s.threads[0].Running? then Execute(0) else Finish(0);
    }
  }

  // What a thread may still do before it has nothing to do.
  function Pending(p: Phase): int {
    match p
    case Outside => 1
    case Waiting(signalled) => if signalled then 3 else 0
    case Running(_, _) => 2
    case Finished(_, _) => 0
  }

  function Rank(s: State): int {
    6 * s.shared.nTodo + 2 * |s.shared.queue| + Sum(s.threads, Pending)
  }

  lemma RankIsNat(s: State)
    requires Counted(s)
    ensures Rank(s) >= 0
  {
    CountsAreNat(s);
    SumNat(s.threads, Pending);
  }

  lemma AdvanceRank(g: Setting, s: State, t: nat)
    requires Inv(g, s) && t < |s.threads| && s.threads[t] == ACTIVE
    ensures Rank(Advance(g, s, t)) <= Rank(s) - (if t == 0 then 1 else 2)
  {
    hide Sum, Judged, Conserved, LogOk, BatchSize, Popped, Left;
    var n := BatchSize(s.shared, g.limit);
    CountsAreNat(s);
    if s.shared.queue != [] {
      BatchFits(s.shared, g.limit);
      LeftSize(s.shared.queue, n);
      SumUpdate(s.threads, t, Running(Popped(s.shared.queue, n), s.shared.fAllOk), Pending);
    } else {
      SumUpdate(s.threads, t, Waiting(false), Pending);
      SumUpdate(s.threads, t, Outside, Pending);
    }
  }

  lemma SignalMaster(threads: seq<Phase>)
    requires threads != []
    ensures Sum(Signal(threads, {0}), Pending) <= Sum(threads, Pending) + 3
  {
    var threads' := if threads[0].Waiting? then threads[0 := Waiting(true)] else threads;
    assert Signal(threads, {0}) == threads';
    if threads[0].Waiting? { SumUpdate(threads, 0, Waiting(true), Pending); }
  }

  lemma ReportedRank(s: State, t: nat)
    requires LockFree(s.threads) && t < |s.threads| && s.threads[t].Finished?
    ensures Rank(Reported(s, t)) <= Rank(s)
  {
    hide Sum;
    SignalMaster(s.threads);
    SumUpdate(s.threads, t, ACTIVE, Pending);
    if t != 0 { SumUpdate(Signal(s.threads, {0}), t, ACTIVE, Pending); }
  }

  // Every such step brings the end nearer.
  lemma WorkLowersRank(g: Setting, s: State, step: Step)
    requires Inv(g, s) && LockFree(s.threads) && IsWork(s, step)
    ensures Rank(Next(g, s, step)) < Rank(s)
  {
    hide Inv, Sum, Advance;
    match step
    case Enter(t) =>
      EnteredIsOk(g, s, t);
      AdvanceRank(g, Entered(s, t), t);
      SumUpdate(s.threads, t, ACTIVE, Pending);
    case Wake(t) =>
      WokenIsOk(g, s, t);
      AdvanceRank(g, Woken(s, t), t);
      SumUpdate(s.threads, t, ACTIVE, Pending);
    case Execute(t) =>
      SumUpdate(s.threads, t, Next(g, s, step).threads[t], Pending);
    case Finish(t) =>
      ReportedIsOk(g, s, t);
      ReportedRank(s, t);
      AdvanceRank(g, Reported(s, t), t);
    case Add(_, _) =>
  }

  // A spurious wake-up does not put it off: the thread goes back to sleep or helps.
  lemma SpuriousKeepsRank(g: Setting, s: State, step: Step)
    requires Inv(g, s) && LockFree(s.threads) && IsSpurious(s, step)
    ensures Rank(Next(g, s, step)) <= Rank(s)
  {
    hide Sum, Judged, Conserved, LogOk;
    var t := step.t;
    WokenIsOk(g, s, t);
    SumUpdate(s.threads, t, ACTIVE, Pending);
    if t == 0 {
      SumUpdate(Woken(s, t).threads, t, Waiting(false), Pending);
    } else {
      AdvanceRank(g, Woken(s, t), t);
    }
  }

  predicate IsInnerRun(g: Setting, s: State, steps: seq<Step>)
    decreases |steps|
  {
    steps != [] ==> IsInner(s, steps[0]) && IsInnerRun(g, Next(g, s, steps[0]), steps[1..])
  }

  // The steps of a run that are not spurious wake-ups.
  function Works(g: Setting, s: State, steps: seq<Step>): nat
    requires IsInnerRun(g, s, steps)
    decreases |steps|
  {
    if steps == [] then 0
    else (if IsWork(s, steps[0]) then 1 else 0) + Works(g, Next(g, s, steps[0]), steps[1..])
  }

  lemma {:induction false} InnerRunIsRun(g: Setting, s: State, steps: seq<Step>)
    requires IsInnerRun(g, s, steps)
    ensures IsRun(g, s, steps)
    decreases |steps|
  {
    if steps != [] { InnerRunIsRun(g, Next(g, s, steps[0]), steps[1..]); }
  }

  lemma CountedOf(g: Setting, s: State)
    requires Inv(g, s)
    ensures Counted(s)
  {
  }

  lemma {:induction false} WorkIsBounded(g: Setting, s: State, steps: seq<Step>)
    requires Inv(g, s) && LockFree(s.threads) && IsInnerRun(g, s, steps)
    ensures Works(g, s, steps) <= Rank(s)
    decreases |steps|
  {
    hide Inv, Next, Rank;
    CountedOf(g, s);
    RankIsNat(s);
    if steps != [] {
      NextIsOk(g, s, steps[0]);
      if IsWork(s, steps[0]) { WorkLowersRank(g, s, steps[0]); } else { SpuriousKeepsRank(g, s, steps[0]); }
      WorkIsBounded(g, Next(g, s, steps[0]), steps[1..]);
    }
  }

  lemma {:induction false} RunsJoin(g: Setting, s: State, a: seq<Step>, b: seq<Step>)
    requires IsRun(g, s, a) && IsRun(g, After(g, s, a), b)
    ensures IsRun(g, s, a + b) && After(g, s, a + b) == After(g, After(g, s, a), b)
    decreases |a|
  {
    if a == [] {
      assert a + b == b;
    } else {
      assert (a + b)[1..] == a[1..] + b;
      RunsJoin(g, Next(g, s, a[0]), a[1..], b);
    }
  }

  // Whatever the scheduler does, Wait returns: the steps of the threads, spurious wake-ups apart, are bounded in
  // number, and as long as the master is inside there is one to take.
  lemma WaitReturns(g: Setting, s: State, steps: seq<Step>)
    requires Reachable(g, s) && s.threads != [] && IsInnerRun(g, s, steps)
    ensures Works(g, s, steps) <= Rank(s)
    ensures IsRun(g, s, steps) && After(g, s, steps).threads != []
    ensures (forall step :: !IsWork(After(g, s, steps), step)) ==> After(g, s, steps).threads[0].Outside?
  {
    InnerRunIsRun(g, s, steps);
    ReachableIsOk(g, s);
    WorkIsBounded(g, s, steps);
    var s' := After(g, s, steps);
    var workers: nat, before: seq<Step> :| IsRun(g, Start(workers), before) && s == After(g, Start(workers), before);
    RunsJoin(g, Start(workers), before, steps);
    assert Reachable(g, s');
    ReachableIsOk(g, s');
    if !s'.threads[0].Outside? {
      var step := WaitIsNeverStuck(g, s');
    }
  }

  /* ----- The critical sections make the steps ----- */

  // What a thread does under the lock, in the order Loop does it, moves the shared fields as the step says.
  method RunStep(q: CheckQueue, g: Setting, s: State, step: Step)
    requires Reachable(g, s) && Enabled(s, step) && q.Model() == s.shared && q.nBatchSize == g.limit
    modifies q
    ensures q.Model() == Next(g, s, step).shared
  {
    hide Reachable, Inv, Proceed, Counted;
    ReachableIsOk(g, s);
    match step
    case Enter(t) =>
      SectionCounts(g, s, step);
      var _ := q.Begin(t == 0, 0, true);
      var _ := q.Continue(t == 0);
    case Wake(t) =>
      SectionCounts(g, s, step);
      q.WakeUp();
      var _ := q.Continue(t == 0);
    case Execute(t) =>
      var _ := RunBatch(g.eval, s.threads[t].batch, s.threads[t].ok);
    case Finish(t) =>
      SectionCounts(g, s, step);
      var _ := q.Begin(t == 0, |s.threads[t].batch|, s.threads[t].ok);
      var _ := q.Continue(t == 0);
    case Add(checks, woken) =>
      var _ := q.Add(checks);
  }

  // The counters are not negative inside the section.
  lemma SectionCounts(g: Setting, s: State, step: Step)
    requires Inv(g, s) && LockFree(s.threads) && Enabled(s, step) && (step.Enter? || step.Wake? || step.Finish?)
    ensures var q := (if step.Enter? then Entered(s, step.t) else if step.Wake? then Woken(s, step.t)
            else Reported(s, step.t)).shared;
            q.nTotal >= 0 && q.nIdle >= 0
  {
    hide Inv;
    match step
    case Enter(t) => EnteredIsOk(g, s, t); CountedOf(g, Entered(s, t)); CountsAreNat(Entered(s, t));
    case Wake(t) => WokenIsOk(g, s, t); CountedOf(g, Woken(s, t)); CountsAreNat(Woken(s, t));
    case Finish(t) => ReportedIsOk(g, s, t); CountedOf(g, Reported(s, t)); CountsAreNat(Reported(s, t));
  }

  // The constructor of the control object: between rounds its assert holds.
  method BeginRound(q: CheckQueue, g: Setting, s: State) returns (isIdle: bool)
    requires Reachable(g, s) && s.added == [] && q.Model() == s.shared
    ensures isIdle
  {
    isIdle := q.IsIdle();
    IdleBetweenRounds(g, s);
  }
}
