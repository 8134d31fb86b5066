/**
 The per-context guard of the native module: a set of busy contexts under one
 mutex, a condition variable, and the interpreter lock. Threads run lists of
 calls, and every interleaving of their steps is a run.
 */
module ContextGuard {
  import opened Wrappers

  /**
   A compile releases the interpreter lock before it takes the guard and takes
   it back after it dropped the guard. A plan or work-estimate call keeps it
   throughout. Any other Python code only holds it.
   */
  datatype Kind = Compile | Plan | Other
  datatype Call = Call(kind: Kind, context: nat)

  datatype Pc =
    | Outside      // between calls
    | Entered      // holds the interpreter lock
    | Locking      // the guard's constructor wants the mutex
    | Testing      // holds the mutex and tests the set
    | Waiting      // on the condition variable
    | Woken        // wants the mutex back
    | Inside       // holds the guard
    | Closing      // the guard's destructor wants the mutex
    | Erasing      // holds the mutex
    | Notifying    // dropped the mutex, has not notified yet
    | Returning    // the guard is gone
    | Leaving      // holds the interpreter lock

  /** `calls[0]` is the call a thread is in, when it is in one. */
  datatype Thread = Thread(pc: Pc, calls: seq<Call>)
  /** The set of busy contexts is `busy.Keys`; the map also names the thread that inserted each. */
  datatype State = State(gil: Option<nat>, mutex: Option<nat>, busy: map<nat, nat>, threads: seq<Thread>)

  predicate WellFormed(th: Thread) {
    && (th.pc != Outside ==> th.calls != [])
    && (th.pc != Outside && th.calls[0].kind == Other ==> th.pc == Entered || th.pc == Leaving)
  }

  function Context(th: Thread): nat
    requires th.calls != []
  {
    th.calls[0].context
  }

  predicate HoldsGil(th: Thread) {
    || th.pc == Entered || th.pc == Leaving
    || (th.pc != Outside && th.calls != [] && th.calls[0].kind == Plan)
  }

  predicate HoldsMutex(th: Thread) {
    th.pc == Testing || th.pc == Erasing
  }

  /** Between the insertion of its context and the erasure of it. */
  predicate HoldsGuard(th: Thread) {
    th.calls != [] && (th.pc == Inside || th.pc == Closing || th.pc == Erasing)
  }

  predicate Finished(th: Thread) {
    th.pc == Outside && th.calls == []
  }

  // ----------------------------------------------------------------- steps

  function Moved(s: State, t: nat, pc: Pc): State
    requires t < |s.threads|
  {
    s.(threads := s.threads[t := s.threads[t].(pc := pc)])
  }

  /** Whether thread `t` can take its next step. */
  predicate Enabled(s: State, t: nat) {
    && t < |s.threads| && WellFormed(s.threads[t])
    && var th := s.threads[t];
       match th.pc
       case Outside => th.calls != [] && s.gil.None?
       case Locking => s.mutex.None?
       case Woken => s.mutex.None?
       case Closing => s.mutex.None?
       case Waiting => false
       case Returning => th.calls[0].kind == Plan || s.gil.None?
       case _ => true
  }

  function Wake(th: Thread): Thread {
    if th.pc == Waiting then th.(pc := Woken) else th
  }

  function Step(s: State, t: nat): State
    requires Enabled(s, t)
  {
    var th := s.threads[t];
    match th.pc
    case Outside => Moved(s, t, Entered).(gil := Some(t))
    case Entered =>
      if th.calls[0].kind == Other then Moved(s, t, Leaving)
      else if th.calls[0].kind == Compile then Moved(s, t, Locking).(gil := None)
      else Moved(s, t, Locking)
    case Locking => Moved(s, t, Testing).(mutex := Some(t))
    case Woken => Moved(s, t, Testing).(mutex := Some(t))
    case Testing =>
      if Context(th) in s.busy then Moved(s, t, Waiting).(mutex := None)
      else Moved(s, t, Inside).(mutex := None, busy := s.busy[Context(th) := t])
    case Inside => Moved(s, t, Closing)
    case Closing => Moved(s, t, Erasing).(mutex := Some(t))
    case Erasing => Moved(s, t, Notifying).(mutex := None, busy := s.busy - {Context(th)})
    case Notifying =>
      var woken := seq(|s.threads|, i requires 0 <= i < |s.threads| => Wake(s.threads[i]));
      s.(threads := woken[t := th.(pc := Returning)])
    case Returning =>
      if th.calls[0].kind == Plan then Moved(s, t, Leaving) else Moved(s, t, Leaving).(gil := Some(t))
    case Leaving => s.(gil := None, threads := s.threads[t := Thread(Outside, th.calls[1..])])
    case Waiting => s
  }

  /** A thread steps, or a waiting thread wakes up for no reason. */
  datatype Action = Run(t: nat) | Spurious(t: nat)

  predicate Possible(s: State, a: Action) {
    match a
    case Run(t) => Enabled(s, t)
    case Spurious(t) => t < |s.threads| && s.threads[t].pc == Waiting
  }

  function Apply(s: State, a: Action): State
    requires Possible(s, a)
  {
    match a
    case Run(t) => Step(s, t)
    case Spurious(t) => Moved(s, t, Woken)
  }

  ghost predicate Initial(s: State) {
    && s.gil.None? && s.mutex.None? && s.busy == map[]
    && forall t :: 0 <= t < |s.threads| ==> s.threads[t].pc == Outside
  }

  /** Every action is possible when its turn comes. */
  predicate IsRun(s: State, actions: seq<Action>)
    decreases |actions|
  {
    actions == [] || (Possible(s, actions[0]) && IsRun(Apply(s, actions[0]), actions[1..]))
  }

  function End(s: State, actions: seq<Action>): State
    requires IsRun(s, actions)
    decreases |actions|
  {
    if actions == [] then s else End(Apply(s, actions[0]), actions[1..])
  }

  // ------------------------------------------------------------- invariant

  /** Exactly the owner of the interpreter lock is where a thread holds it. */
  ghost predicate GilOwned(s: State) {
    && (s.gil.Some? ==> s.gil.value < |s.threads|)
    && forall t :: 0 <= t < |s.threads| ==> (HoldsGil(s.threads[t]) <==> s.gil == Some(t))
  }

  ghost predicate MutexOwned(s: State) {
    && (s.mutex.Some? ==> s.mutex.value < |s.threads|)
    && forall t :: 0 <= t < |s.threads| ==> (HoldsMutex(s.threads[t]) <==> s.mutex == Some(t))
  }

  ghost predicate AllWellFormed(s: State) {
    forall t :: 0 <= t < |s.threads| ==> WellFormed(s.threads[t])
  }

  /** A guard holder is recorded under its context, and every busy context has its holder. */
  ghost predicate BusyOwned(s: State) {
    && (forall t :: 0 <= t < |s.threads| && HoldsGuard(s.threads[t]) ==>
          Context(s.threads[t]) in s.busy && s.busy[Context(s.threads[t])] == t)
    && (forall c :: c in s.busy ==>
          s.busy[c] < |s.threads| && HoldsGuard(s.threads[s.busy[c]]) && Context(s.threads[s.busy[c]]) == c)
  }

  ghost predicate WillNotify(s: State, c: nat, t: int) {
    0 <= t < |s.threads| && s.threads[t].pc == Notifying && s.threads[t].calls != [] && Context(s.threads[t]) == c
  }

  /** A waiting thread has a holder to wait for, or a notification on its way. */
  ghost predicate NoLostWakeup(s: State) {
    forall t :: 0 <= t < |s.threads| && s.threads[t].pc == Waiting && s.threads[t].calls != [] ==>
      WakeupComing(s, Context(s.threads[t]))
  }

  ghost predicate WakeupComing(s: State, c: nat) {
    c in s.busy || exists u :: WillNotify(s, c, u)
  }

  ghost predicate Inv(s: State) {
    AllWellFormed(s) && GilOwned(s) && MutexOwned(s) && BusyOwned(s) && NoLostWakeup(s)
  }

  lemma InitialInv(s: State)
    requires Initial(s)
    ensures Inv(s)
  {
  }

  /** What a step does to the threads: only `t` moves, and a notification wakes the waiting ones. */
  lemma StepThreads(s: State, t: nat)
    requires Enabled(s, t) && AllWellFormed(s)
    ensures var after := Step(s, t);
            && |after.threads| == |s.threads| && AllWellFormed(after)
            && (forall u :: 0 <= u < |s.threads| && u != t ==>
                  after.threads[u] == if s.threads[t].pc == Notifying then Wake(s.threads[u]) else s.threads[u])
  {
  }

  lemma StepKeepsGil(s: State, t: nat)
    requires Inv(s) && Enabled(s, t)
    ensures GilOwned(Step(s, t))
  {
    StepThreads(s, t);
    var after, th := Step(s, t), s.threads[t];
    assert HoldsGil(th) <==> s.gil == Some(t);
    assert HoldsGil(after.threads[t]) <==> after.gil == Some(t);
    assert after.gil == s.gil || (s.gil.None? && after.gil == Some(t)) || (s.gil == Some(t) && after.gil.None?);
    hide Step, Enabled;
  }

  lemma StepKeepsMutex(s: State, t: nat)
    requires Inv(s) && Enabled(s, t)
    ensures MutexOwned(Step(s, t))
  {
    StepThreads(s, t);
    var after, th := Step(s, t), s.threads[t];
    assert HoldsMutex(th) <==> s.mutex == Some(t);
    assert HoldsMutex(after.threads[t]) <==> after.mutex == Some(t);
    assert || after.mutex == s.mutex
           || (s.mutex.None? && after.mutex == Some(t))
           || (s.mutex == Some(t) && after.mutex.None?);
    hide Step, Enabled;
  }

  /** How the busy set follows the guard that thread `t` takes or drops. */
  lemma StepBusy(s: State, t: nat)
    requires Enabled(s, t)
    ensures var th, after := s.threads[t], Step(s, t);
            && t < |after.threads| && WellFormed(after.threads[t])
            && var th' := after.threads[t];
               if th.pc == Testing && Context(th) !in s.busy then
                 && after.busy == s.busy[Context(th) := t] && !HoldsGuard(th) && HoldsGuard(th')
                 && Context(th') == Context(th)
               else if th.pc == Erasing then
                 after.busy == s.busy - {Context(th)} && HoldsGuard(th) && !HoldsGuard(th')
               else
                 && after.busy == s.busy && (HoldsGuard(th) <==> HoldsGuard(th'))
                 && (HoldsGuard(th) ==> Context(th) == Context(th'))
  {
  }

  lemma StepKeepsBusy(s: State, t: nat)
    requires Inv(s) && Enabled(s, t)
    ensures BusyOwned(Step(s, t))
  {
    StepThreads(s, t);
    StepBusy(s, t);
    var after := Step(s, t);
    assert forall u :: 0 <= u < |s.threads| && u != t ==> SameGuard(s.threads[u], after.threads[u]);
    BusyFollows(s, after, t);
  }

  ghost predicate SameGuard(th: Thread, th': Thread) {
    (HoldsGuard(th) <==> HoldsGuard(th')) && (HoldsGuard(th) ==> Context(th) == Context(th'))
  }

  lemma BusyFollows(s: State, after: State, t: nat)
    requires BusyOwned(s) && |after.threads| == |s.threads| && t < |s.threads|
    requires forall u :: 0 <= u < |s.threads| && u != t ==> SameGuard(s.threads[u], after.threads[u])
    requires var th, th' := s.threads[t], after.threads[t];
             || (after.busy == s.busy && SameGuard(th, th'))
             || (th.calls != [] && Context(th) !in s.busy && after.busy == s.busy[Context(th) := t]
                 && !HoldsGuard(th) && HoldsGuard(th') && Context(th') == Context(th))
             || (HoldsGuard(th) && !HoldsGuard(th') && after.busy == s.busy - {Context(th)})
    ensures BusyOwned(after)
  {
    hide HoldsGuard;
  }

  lemma StepKeepsWakeups(s: State, t: nat)
    requires Inv(s) && Enabled(s, t)
    ensures NoLostWakeup(Step(s, t))
  {
    StepThreads(s, t);
    var after, th := Step(s, t), s.threads[t];
    forall u | 0 <= u < |after.threads| && after.threads[u].pc == Waiting && after.threads[u].calls != []
      ensures WakeupComing(after, Context(after.threads[u]))
    {
      var c := Context(after.threads[u]);
      if u == t {
        assert c in after.busy;
      } else {
        assert after.threads[u] == s.threads[u] && WakeupComing(s, c);
        if c in s.busy {
          assert c in after.busy || WillNotify(after, c, t);
        } else {
          var v :| WillNotify(s, c, v);
          assert WillNotify(after, c, v);
        }
      }
    }
  }

  lemma SpuriousKeepsOwners(s: State, t: nat)
    requires AllWellFormed(s) && GilOwned(s) && MutexOwned(s) && BusyOwned(s) && Possible(s, Spurious(t))
    ensures var after := Moved(s, t, Woken);
            AllWellFormed(after) && GilOwned(after) && MutexOwned(after) && BusyOwned(after)
  {
  }

  lemma SpuriousKeepsWakeups(s: State, t: nat)
    requires NoLostWakeup(s) && Possible(s, Spurious(t))
    ensures NoLostWakeup(Moved(s, t, Woken))
  {
    var after := Moved(s, t, Woken);
    forall u | 0 <= u < |after.threads| && after.threads[u].pc == Waiting && after.threads[u].calls != []
      ensures WakeupComing(after, Context(after.threads[u]))
    {
      var c := Context(s.threads[u]);
      assert after.threads[u] == s.threads[u] && WakeupComing(s, c);
      if c !in s.busy {
        var v :| WillNotify(s, c, v);
        assert WillNotify(after, c, v);
      }
    }
  }

  lemma SpuriousKeepsInv(s: State, t: nat)
    requires Inv(s) && Possible(s, Spurious(t))
    ensures Inv(Moved(s, t, Woken))
  {
    SpuriousKeepsOwners(s, t);
    SpuriousKeepsWakeups(s, t);
    hide AllWellFormed, GilOwned, MutexOwned, BusyOwned, NoLostWakeup;
  }

  /** Every state of every run keeps the invariant. */
  lemma {:induction false} RunsKeepInv(s: State, actions: seq<Action>)
    requires Inv(s) && IsRun(s, actions)
    ensures Inv(End(s, actions))
    decreases |actions|
  {
    if actions != [] {
      StepOrWakeKeepsInv(s, actions[0]);
      RunsKeepInv(Apply(s, actions[0]), actions[1..]);
    }
  }

  lemma StepOrWakeKeepsInv(s: State, a: Action)
    requires Inv(s) && Possible(s, a)
    ensures Inv(Apply(s, a)) && |Apply(s, a).threads| == |s.threads|
  {
    match a
    case Run(t) =>
      StepThreads(s, t);
      StepKeepsGil(s, t);
      StepKeepsMutex(s, t);
      StepKeepsBusy(s, t);
      StepKeepsWakeups(s, t);
    case Spurious(t) => SpuriousKeepsInv(s, t);
  }

  // ----------------------------------------------------------------- safety

  /** At most one thread is inside a context, whatever the interleaving. */
  lemma AtMostOneThreadPerContext(s: State, actions: seq<Action>, t: nat, u: nat)
    requires Initial(s) && IsRun(s, actions)
    requires t < |End(s, actions).threads| && u < |End(s, actions).threads|
    requires HoldsGuard(End(s, actions).threads[t]) && HoldsGuard(End(s, actions).threads[u])
    requires Context(End(s, actions).threads[t]) == Context(End(s, actions).threads[u])
    ensures t == u
  {
    InitialInv(s);
    RunsKeepInv(s, actions);
  }

  /** While a call waits for the guard with the interpreter lock held, the holder is a compile without it. */
  lemma WaitingPlanWaitsForACompile(s: State, t: nat)
    requires Inv(s) && t < |s.threads| && s.threads[t].pc == Waiting && HoldsGil(s.threads[t])
    requires s.threads[t].calls != [] && Context(s.threads[t]) in s.busy
    ensures var h := s.busy[Context(s.threads[t])];
            && h < |s.threads| && HoldsGuard(s.threads[h]) && s.threads[h].calls[0].kind == Compile
            && Enabled(s.(mutex := None), h)
  {
    var h := s.busy[Context(s.threads[t])];
    assert HoldsGuard(s.threads[h]) && WellFormed(s.threads[h]);
    assert s.gil == Some(t);
    assert h != t && !HoldsGil(s.threads[h]);
  }

  // --------------------------------------------------------------- progress

  /** Some thread can step unless every thread has run all its calls. */
  lemma NoDeadlock(s: State) returns (t: nat)
    requires Inv(s)
    requires exists u :: 0 <= u < |s.threads| && !Finished(s.threads[u])
    ensures Enabled(s, t)
  {
    var u: nat :| u < |s.threads| && !Finished(s.threads[u]);
    if s.mutex.Some? {
      t := s.mutex.value;
      assert HoldsMutex(s.threads[t]) && WellFormed(s.threads[t]);
    } else {
      t := u;
      if !Enabled(s, t) && s.threads[t].pc != Waiting {
        t := s.gil.value;
        assert HoldsGil(s.threads[t]) && WellFormed(s.threads[t]);
      }
      if s.threads[t].pc == Waiting {
        t := Waker(s, t);
      }
    }
  }

  /** The thread that a waiting thread waits for can step. */
  lemma Waker(s: State, t: nat) returns (w: nat)
    requires Inv(s) && s.mutex.None? && t < |s.threads| && s.threads[t].pc == Waiting
    ensures Enabled(s, w)
  {
    var th := s.threads[t];
    assert WellFormed(th) && WakeupComing(s, Context(th));
    if Context(th) in s.busy {
      w := s.busy[Context(th)];
    } else {
      w :| WillNotify(s, Context(th), w);
    }
    assert WellFormed(s.threads[w]);
  }

  // -------------------------------------------------- every reachable state

  /** No other thread holds the guard of the same context. */
  ghost predicate IsAlone(s: State, t: nat)
    requires t < |s.threads|
  {
    forall u :: 0 <= u < |s.threads| && u != t && HoldsGuard(s.threads[t]) && HoldsGuard(s.threads[u]) ==>
      Context(s.threads[u]) != Context(s.threads[t])
  }

  /** Whoever owns the interpreter lock, a thread on its way out of the guard can step once the mutex is free. */
  ghost predicate LeavesTheGuard(s: State, t: nat)
    requires t < |s.threads|
  {
    HoldsGuard(s.threads[t]) || s.threads[t].pc == Notifying ==>
      forall owner: Option<nat> :: Enabled(s.(mutex := None, gil := owner), t)
  }

  /**
   A thread that waits with the interpreter lock waits for a compile that needs no
   interpreter lock, or for a notification.
  */
  ghost predicate WaitsForACompile(s: State, t: nat)
    requires t < |s.threads|
  {
    s.threads[t].pc == Waiting && HoldsGil(s.threads[t]) && s.threads[t].calls != [] ==>
      var c := Context(s.threads[t]);
      if c in s.busy then IsCompile(s, s.busy[c]) else exists u :: WillNotify(s, c, u)
  }

  ghost predicate IsCompile(s: State, h: nat) {
    && h < |s.threads| && HoldsGuard(s.threads[h]) && s.threads[h].calls[0].kind == Compile
    && Enabled(s.(mutex := None), h)
  }

  /** What every reachable state guarantees, for any threads, contexts and calls. */
  lemma ReachableStateIsSafe(s: State, actions: seq<Action>)
    requires Initial(s) && IsRun(s, actions)
    ensures var end := End(s, actions);
            && (forall t :: 0 <= t < |end.threads| ==>
                  IsAlone(end, t) && LeavesTheGuard(end, t) && WaitsForACompile(end, t))
            && ((forall t :: 0 <= t < |end.threads| ==> Finished(end.threads[t])) || exists t: nat :: Enabled(end, t))
  {
    InitialInv(s);
    RunsKeepInv(s, actions);
    var end := End(s, actions);
    forall t | 0 <= t < |end.threads| ensures IsAlone(end, t) && LeavesTheGuard(end, t) && WaitsForACompile(end, t) {
      SafeThread(end, t);
    }
    if exists u :: 0 <= u < |end.threads| && !Finished(end.threads[u]) {
      var t := NoDeadlock(end);
    }
  }

  lemma SafeThread(s: State, t: nat)
    requires Inv(s) && t < |s.threads|
    ensures IsAlone(s, t) && LeavesTheGuard(s, t) && WaitsForACompile(s, t)
  {
    var th := s.threads[t];
    assert WellFormed(th);
    if th.pc == Waiting && HoldsGil(th) && th.calls != [] && Context(th) in s.busy {
      WaitingPlanWaitsForACompile(s, t);
    }
  }

  /** The most steps a thread can still take in its current call, when `n` threads may have to be woken. */
  function CallCost(pc: Pc, n: nat): nat {
    match pc
    case Outside => 0
    case Leaving => 1
    case Returning => 2
    case Notifying => 3 + 2 * n
    case Erasing => 4 + 2 * n
    case Closing => 5 + 2 * n
    case Inside => 6 + 2 * n
    case Waiting => 7 + 2 * n
    case Testing => 8 + 2 * n
    case Woken => 9 + 2 * n
    case Locking => 9 + 2 * n
    case Entered => 10 + 2 * n
  }

  function CallsCost(calls: seq<Call>, n: nat): nat {
    if calls == [] then 0 else 11 + 2 * n + CallsCost(calls[1..], n)
  }

  function Cost(th: Thread, n: nat): nat {
    if th.pc == Outside then CallsCost(th.calls, n)
    else CallCost(th.pc, n) + if th.calls == [] then 0 else CallsCost(th.calls[1..], n)
  }

  function TotalCost(threads: seq<Thread>, n: nat): nat {
    if threads == [] then 0 else Cost(threads[0], n) + TotalCost(threads[1..], n)
  }

  lemma {:induction false} CostOfOne(threads: seq<Thread>, t: nat, th: Thread, n: nat)
    requires t < |threads|
    ensures TotalCost(threads[t := th], n) == TotalCost(threads, n) - Cost(threads[t], n) + Cost(th, n)
    ensures Cost(threads[t], n) <= TotalCost(threads, n)
  {
    if t == 0 {
      assert threads[t := th][1..] == threads[1..];
    } else {
      assert threads[t := th][1..] == threads[1..][t - 1 := th];
      CostOfOne(threads[1..], t - 1, th, n);
    }
  }

  /** Waking threads costs at most two steps each. */
  lemma {:induction false} CostOfWaking(threads: seq<Thread>, woken: seq<Thread>, n: nat)
    requires |woken| == |threads| && forall i :: 0 <= i < |threads| ==> woken[i] == Wake(threads[i])
    ensures TotalCost(woken, n) <= TotalCost(threads, n) + 2 * |threads|
  {
    if threads != [] {
      CostOfWaking(threads[1..], woken[1..], n);
    }
  }

  /** Every step brings the end nearer; only a spurious wakeup puts it off, by two steps. */
  lemma StepCosts(s: State, a: Action)
    requires AllWellFormed(s) && Possible(s, a)
    ensures var n := |s.threads|;
            TotalCost(Apply(s, a).threads, n) + (if a.Run? then 1 else -2) <= TotalCost(s.threads, n)
  {
    var n := |s.threads|;
    var th := s.threads[a.t];
    OwnStepCosts(s, a, n);
    if a.Run? && th.pc == Notifying {
      var woken := seq(n, i requires 0 <= i < n => Wake(s.threads[i]));
      CostOfWaking(s.threads, woken, n);
      CostOfOne(woken, a.t, th.(pc := Returning), n);
      assert woken[a.t] == th && Apply(s, a).threads == woken[a.t := th.(pc := Returning)];
    } else {
      CostOfOne(s.threads, a.t, Apply(s, a).threads[a.t], n);
    }
    hide TotalCost, Cost, Step, Enabled;
  }

  lemma OwnStepCosts(s: State, a: Action, n: nat)
    requires AllWellFormed(s) && Possible(s, a)
    ensures a.t < |Apply(s, a).threads|
    ensures var th := s.threads[a.t];
            var th' := Apply(s, a).threads[a.t];
            && (a.Run? && th.pc == Notifying ==> th' == th.(pc := Returning) && Cost(th', n) + 1 + 2 * n <= Cost(th, n))
            && (a.Run? && th.pc != Notifying ==> Cost(th', n) + 1 <= Cost(th, n))
            && (a.Run? && th.pc != Notifying ==> Apply(s, a).threads == s.threads[a.t := th'])
            && (a.Spurious? ==> Cost(th', n) == Cost(th, n) + 2 && Apply(s, a).threads == s.threads[a.t := th'])
  {
    if a.Run? {
      RunCosts(s, a.t, n);
      hide Cost, Step;
    }
  }

  lemma RunCosts(s: State, t: nat, n: nat)
    requires Enabled(s, t)
    ensures |Step(s, t).threads| == |s.threads|
    ensures var th := s.threads[t];
            var th' := Step(s, t).threads[t];
            && (th.pc == Notifying ==> th' == th.(pc := Returning) && Cost(th', n) + 1 + 2 * n <= Cost(th, n))
            && (th.pc != Notifying ==> Cost(th', n) + 1 <= Cost(th, n) && Step(s, t).threads == s.threads[t := th'])
  {
  }

  function Steps(actions: seq<Action>): nat {
    if actions == [] then 0 else (if actions[0].Run? then 1 else 0) + Steps(actions[1..])
  }

  /** A run takes no more steps than its calls cost, and two more for each spurious wakeup. */
  lemma {:induction false} RunsAreBounded(s: State, actions: seq<Action>)
    requires Inv(s) && IsRun(s, actions)
    ensures Steps(actions) + TotalCost(End(s, actions).threads, |s.threads|)
         <= TotalCost(s.threads, |s.threads|) + 2 * (|actions| - Steps(actions))
    decreases |actions|
  {
    if actions != [] {
      StepOrWakeKeepsInv(s, actions[0]);
      StepCosts(s, actions[0]);
      RunsAreBounded(Apply(s, actions[0]), actions[1..]);
    }
    hide TotalCost, Apply;
  }

  /**
   Every run that cannot be continued by a step has completed every call of
   every thread and left the guard as it was at the start.
   */
  lemma EveryMaximalRunCompletes(s: State, actions: seq<Action>)
    requires Initial(s) && IsRun(s, actions)
    requires forall t: nat :: !Enabled(End(s, actions), t)
    ensures var end := End(s, actions);
            && (forall t :: 0 <= t < |end.threads| ==> Finished(end.threads[t]))
            && end.busy == map[] && end.gil.None? && end.mutex.None?
  {
    InitialInv(s);
    RunsKeepInv(s, actions);
    var end := End(s, actions);
    if exists u :: 0 <= u < |end.threads| && !Finished(end.threads[u]) {
      var t := NoDeadlock(end);
      assert false;
    }
    if c :| c in end.busy {
      assert false;
    }
  }

  // ------------------------------------------------- every call is made in full

  /** A thread that has not yet done in its call what the call is for. */
  predicate StillBefore(th: Thread) {
    && th.calls != []
    && if th.calls[0].kind == Other then th.pc == Outside
       else th.pc in {Outside, Entered, Locking, Testing, Waiting, Woken}
  }

  /**
   What every call is for: a guarded call holds its context, a compile without the
   interpreter lock and a plan with it; any other call holds the interpreter lock.
  */
  ghost predicate IsServed(s: State, t: nat, calls: seq<Call>) {
    && t < |s.threads| && calls != [] && s.threads[t].calls == calls
    && if calls[0].kind == Other then s.gil == Some(t)
       else
         && HoldsGuard(s.threads[t])
         && calls[0].context in s.busy && s.busy[calls[0].context] == t
         && (calls[0].kind == Compile ==> s.gil != Some(t))
         && (calls[0].kind == Plan ==> s.gil == Some(t))
  }

  /** After the first `n` actions of a run the thread is served. */
  ghost predicate ServedAfter(s: State, actions: seq<Action>, n: nat, t: nat, calls: seq<Call>) {
    n <= |actions| && IsRun(s, actions[..n]) && IsServed(End(s, actions[..n]), t, calls)
  }

  /** One action leaves the calls of a thread as they are, or ends the first one, which it never skips. */
  lemma ActionOnCalls(s: State, a: Action, t: nat)
    requires Inv(s) && Possible(s, a) && t < |s.threads|
    ensures var th, after := s.threads[t], Apply(s, a);
            && t < |after.threads|
            && var th' := after.threads[t];
               if th'.calls == th.calls then StillBefore(th) ==> StillBefore(th') || IsServed(after, t, th.calls)
               else th.calls != [] && !StillBefore(th) && th'.calls == th.calls[1..] && th'.pc == Outside
  {
    StepOrWakeKeepsInv(s, a);
    var after := Apply(s, a);
    assert WellFormed(s.threads[t]);
    if a.Run? {
      StepThreads(s, a.t);
    }
  }

  lemma ServedLater(s: State, actions: seq<Action>, n: nat, t: nat, calls: seq<Call>)
    requires IsRun(s, actions) && actions != [] && ServedAfter(Apply(s, actions[0]), actions[1..], n, t, calls)
    ensures ServedAfter(s, actions, n + 1, t, calls)
  {
    assert actions[..n + 1][0] == actions[0] && actions[..n + 1][1..] == actions[1..][..n];
    hide IsServed;
  }

  lemma ServedNow(s: State, actions: seq<Action>, t: nat, calls: seq<Call>)
    requires IsRun(s, actions) && actions != [] && IsServed(Apply(s, actions[0]), t, calls)
    ensures ServedAfter(s, actions, 1, t, calls)
  {
    var one := actions[..1];
    assert one[0] == actions[0] && one[1..] == [];
    assert IsRun(Apply(s, one[0]), one[1..]) && End(Apply(s, one[0]), one[1..]) == Apply(s, one[0]);
    hide IsServed, Apply, Possible;
  }

  lemma {:induction false} CallIsServed(s: State, actions: seq<Action>, t: nat, k: nat) returns (n: nat)
    requires Inv(s) && IsRun(s, actions) && t < |s.threads| && k < |s.threads[t].calls|
    requires k == 0 ==> StillBefore(s.threads[t])
    requires t < |End(s, actions).threads| && End(s, actions).threads[t].calls == []
    ensures ServedAfter(s, actions, n, t, s.threads[t].calls[k..])
    decreases |actions|
  {
    var calls := s.threads[t].calls;
    assert actions != [] && Possible(s, actions[0]);
    ActionOnCalls(s, actions[0], t);
    StepOrWakeKeepsInv(s, actions[0]);
    var next := Apply(s, actions[0]);
    hide Inv, Apply, Possible, IsServed, ServedAfter, StillBefore;
    if next.threads[t].calls == calls && k == 0 && !StillBefore(next.threads[t]) {
      n := 1;
      assert calls[0..] == calls;
      ServedNow(s, actions, t, calls);
    } else {
      var j := if next.threads[t].calls == calls then k else k - 1;
      var later := CallIsServed(next, actions[1..], t, j);
      n := later + 1;
      assert next.threads[t].calls[j..] == calls[k..];
      ServedLater(s, actions, later, t, calls[k..]);
    }
  }

  /**
   On the way to a state in which no thread can step, every call of every thread was
   served: some prefix of the run ends while the call holds what it is for.
  */
  lemma EveryCallIsServed(s: State, actions: seq<Action>, t: nat, k: nat) returns (n: nat)
    requires Initial(s) && IsRun(s, actions) && (forall u: nat :: !Enabled(End(s, actions), u))
    requires t < |s.threads| && k < |s.threads[t].calls|
    ensures n <= |actions| && IsRun(s, actions[..n])
    ensures var at, call := End(s, actions[..n]), s.threads[t].calls[k];
            && t < |at.threads| && at.threads[t].calls == s.threads[t].calls[k..]
            && (call.kind != Other ==>
                  HoldsGuard(at.threads[t]) && call.context in at.busy && at.busy[call.context] == t)
            && (call.kind == Compile ==> at.gil != Some(t))
            && (call.kind != Compile ==> at.gil == Some(t))
  {
    InitialInv(s);
    EveryMaximalRunCompletes(s, actions);
    ThreadsStay(s, actions);
    assert Finished(End(s, actions).threads[t]);
    n := CallIsServed(s, actions, t, k);
  }

  lemma {:induction false} ThreadsStay(s: State, actions: seq<Action>)
    requires Inv(s) && IsRun(s, actions)
    ensures |End(s, actions).threads| == |s.threads|
    decreases |actions|
  {
    if actions != [] {
      StepOrWakeKeepsInv(s, actions[0]);
      if |s.threads| > 0 { ActionOnCalls(s, actions[0], |s.threads| - 1); }
      ThreadsStay(Apply(s, actions[0]), actions[1..]);
    }
  }
}
