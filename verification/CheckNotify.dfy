/**
 No wake-up is lost: as long as some worker waits without having been notified, there are at least as many notified
 workers as checks in the queue.
 */
module CheckNotify {
  import opened CheckQueues

  function Notified(threads: seq<Phase>): set<nat> {
    set t: nat | 0 < t < |threads| && threads[t] == Waiting(true)
  }

  predicate Awake(s: State) {
    Blocked(s.threads) != {} ==> |s.shared.queue| <= |Notified(s.threads)|
  }

  lemma SetPhase(threads: seq<Phase>, t: nat, p: Phase)
    requires t < |threads|
    ensures Notified(threads[t := p])
         == (Notified(threads) - {t}) + (if t > 0 && p == Waiting(true) then {t} else {})
    ensures Blocked(threads[t := p]) == (Blocked(threads) - {t}) + (if t > 0 && p == Waiting(false) then {t} else {})
  {
  }

  lemma Smaller(s: set<nat>, t: nat)
    ensures |s - {t}| == |s| - if t in s then 1 else 0
  {
    if t !in s { assert s - {t} == s; }
  }

  lemma ActiveGoesOn(threads: seq<Phase>, t: nat, p: Phase)
    requires t < |threads| && threads[t] == ACTIVE && !p.Waiting?
    ensures Notified(threads[t := p]) == Notified(threads) && Blocked(threads[t := p]) == Blocked(threads)
  {
  }

  // A thread in its critical section finds the queue empty, or takes checks from it.
  lemma AdvanceIsAwake(g: Setting, s: State, t: nat)
    requires Counted(s) && t < |s.threads| && s.threads[t] == ACTIVE
    requires Blocked(s.threads) != {} ==> |s.shared.queue| <= |Notified(s.threads)| + 1
    ensures Awake(Advance(g, s, t))
  {
    hide Notified, Blocked, Popped, Left, BatchSize, Counted;
    var s' := Advance(g, s, t);
    if s.shared.queue == [] {
      assert s'.shared.queue == [];
    } else {
      var n := BatchSize(s.shared, g.limit);
      assert 1 <= n <= |s.shared.queue| by {
        CountsAreNat(s);
        BatchFits(s.shared, g.limit);
      }
      LeftSize(s.shared.queue, n);
      ActiveGoesOn(s.threads, t, s'.threads[t]);
      assert s'.threads == s.threads[t := s'.threads[t]];
    }
  }

  lemma SignalMasterOnly(threads: seq<Phase>)
    ensures Notified(Signal(threads, {0})) == Notified(threads) && Blocked(Signal(threads, {0})) == Blocked(threads)
  {
  }

  lemma SignalSome(threads: seq<Phase>, woken: set<nat>)
    requires woken <= Blocked(threads)
    ensures Notified(Signal(threads, woken)) == Notified(threads) + woken
    ensures Blocked(Signal(threads, woken)) == Blocked(threads) - woken
    ensures |Notified(threads) + woken| == |Notified(threads)| + |woken|
  {
    assert Notified(threads) !! woken;
  }

  // Adding one check notifies a worker that waits, and adding more notifies all.
  lemma AddIsAwake(g: Setting, s: State, checks: seq<Check>, woken: set<nat>)
    requires Awake(s) && Enabled(s, Add(checks, woken))
    ensures Awake(Next(g, s, Add(checks, woken)))
    ensures checks != [] && Blocked(s.threads) != {} ==> woken != {} && woken <= Notified(Signal(s.threads, woken))
  {
    hide Notified, Blocked, Signal;
    SignalSome(s.threads, woken);
    if |checks| > 1 { assert Blocked(s.threads) - woken == {}; }
  }

  lemma EnterIsAwake(g: Setting, s: State, t: nat)
    requires Awake(s) && t < |s.threads| && s.threads[t].Outside? && Counted(Entered(s, t))
    ensures Awake(Advance(g, Entered(s, t), t))
  {
    hide Advance, Counted;
    SetPhase(s.threads, t, ACTIVE);
    Smaller(Notified(s.threads), t);
    AdvanceIsAwake(g, Entered(s, t), t);
  }

  lemma WakeIsAwake(g: Setting, s: State, t: nat)
    requires Awake(s) && t < |s.threads| && s.threads[t].Waiting? && Counted(Woken(s, t))
    ensures Awake(Advance(g, Woken(s, t), t))
  {
    hide Advance, Counted, Notified, Blocked;
    SetPhase(s.threads, t, ACTIVE);
    Smaller(Notified(s.threads), t);
    AdvanceIsAwake(g, Woken(s, t), t);
  }

  lemma FinishIsAwake(g: Setting, s: State, t: nat)
    requires Awake(s) && t < |s.threads| && s.threads[t].Finished? && Counted(Reported(s, t))
    ensures Awake(Advance(g, Reported(s, t), t))
  {
    hide Advance, Counted;
    SignalMasterOnly(s.threads);
    SetPhase(s.threads, t, ACTIVE);
    SetPhase(Signal(s.threads, {0}), t, ACTIVE);
    Smaller(Notified(s.threads), t);
    AdvanceIsAwake(g, Reported(s, t), t);
  }

  lemma RunningIsNeither(threads: seq<Phase>, t: nat)
    requires t < |threads| && threads[t].Running?
    ensures t !in Notified(threads) && t !in Blocked(threads)
  {
  }

  lemma ExecuteIsAwake(g: Setting, s: State, t: nat)
    requires Awake(s) && t < |s.threads| && s.threads[t].Running?
    ensures Awake(Next(g, s, Execute(t)))
  {
    hide AllTrue, Advance, Notified, Blocked, Entered, Woken, Reported, Signal;
    SetPhase(s.threads, t, Next(g, s, Execute(t)).threads[t]);
    RunningIsNeither(s.threads, t);
    assert Notified(s.threads) - {t} == Notified(s.threads) && Blocked(s.threads) - {t} == Blocked(s.threads);
  }

  lemma NextIsAwake(g: Setting, s: State, step: Step)
    requires Inv(g, s) && LockFree(s.threads) && Enabled(s, step) && Awake(s)
    ensures Awake(Next(g, s, step))
  {
    hide Inv, Advance, Awake, LockFree, Entered, Woken, Reported, Counted;
    match step
    case Enter(t) =>
      EnteredIsOk(g, s, t);
      CountedOf(g, Entered(s, t));
      EnterIsAwake(g, s, t);
    case Wake(t) =>
      WokenIsOk(g, s, t);
      CountedOf(g, Woken(s, t));
      WakeIsAwake(g, s, t);
    case Execute(t) => ExecuteIsAwake(g, s, t);
    case Finish(t) =>
      ReportedIsOk(g, s, t);
      CountedOf(g, Reported(s, t));
      FinishIsAwake(g, s, t);
    case Add(checks, woken) => AddIsAwake(g, s, checks, woken);
  }

  lemma {:induction false} RunIsAwake(g: Setting, s: State, steps: seq<Step>)
    requires Inv(g, s) && LockFree(s.threads) && IsRun(g, s, steps) && Awake(s)
    ensures Awake(After(g, s, steps))
    decreases |steps|
  {
    hide Inv, Next, LockFree, Awake;
    if steps != [] {
      NextIsOk(g, s, steps[0]);
      NextIsAwake(g, s, steps[0]);
      RunIsAwake(g, Next(g, s, steps[0]), steps[1..]);
    }
  }

  // In every state that is reached, if a worker waits without having been notified, then at least as many workers have
  // been notified, and have not looked yet, as there are checks in the queue.
  lemma NoLostWakeUp(g: Setting, s: State, t: nat)
    requires Reachable(g, s) && 0 < t < |s.threads| && s.threads[t] == Waiting(false)
    ensures |s.shared.queue| <= |set k: nat | 0 < k < |s.threads| && s.threads[k] == Waiting(true)|
  {
    var workers: nat, steps: seq<Step> :| IsRun(g, Start(workers), steps) && s == After(g, Start(workers), steps);
    StartIsOk(g, workers);
    hide Inv, LockFree, IsRun, After;
    RunIsAwake(g, Start(workers), steps);
    assert t in Blocked(s.threads);
  }
}
