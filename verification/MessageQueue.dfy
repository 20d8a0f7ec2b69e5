/**
 * MessageQueue and the worker threads of WorkerExecutor as a machine of interleaved steps. What a thread
 * does while it holds the mutex is one step; waiting releases the mutex; notifications happen after it
 * was released, in steps of their own.
 */
module MessageQueue {

  // A queued item, by identity.
  type Job = nat

  /** Where a thread is in push, pop, flush or the worker loop. */
  datatype Thread =
    | Idle
    | Popping
    | PopAsleep                    // waiting on cond_empty
    | PopWoken                     // notified, has to take the mutex again
    | PopNotify(job: Job)          // took a job, about to notify cond_full
    | Executing(job: Job)
    | Pushing(job: Job)
    | PushAsleep(job: Job)         // waiting on cond_full
    | PushWoken(job: Job)
    | PushNotify                   // queued a job, about to notify cond_empty
    | FlushEmpty                   // flushed, about to notify all on cond_empty
    | FlushFull                    // flushed, about to notify all on cond_full

  /** The queue and its threads, with the history of what was accepted, popped and executed. */
  datatype State = State(
    queue: seq<Job>, alive: bool, threads: seq<Thread>, accepted: seq<Job>, popped: seq<Job>, executed: seq<Job>)

  /** What one thread does next. */
  datatype Act =
    | StartPop
    | StartPush(job: Job)
    | LockPop                      // take the mutex in pop: sleep, pop or give up
    | LockPush                     // take the mutex in push: sleep, push or give up
    | LockFlush
    | NotifyEmpty(j: nat)          // notify_one on cond_empty; j is woken if anybody waits
    | NotifyFull(j: nat)           // notify_one on cond_full
    | NotifyAllEmpty
    | NotifyAllFull
    | WakeUp                       // spurious: a waiting thread wakes by itself
    | Execute

  datatype Step = Step(i: nat, act: Act)

  predicate Ready(t: Thread, act: Act) {
    match act
    case StartPop => t.Idle?
    case StartPush(_) => t.Idle?
    case LockPop => t.Popping? || t.PopWoken?
    case LockPush => t.Pushing? || t.PushWoken?
    case LockFlush => t.Idle?
    case NotifyEmpty(_) => t.PushNotify?
    case NotifyFull(_) => t.PopNotify?
    case NotifyAllEmpty => t.FlushEmpty?
    case NotifyAllFull => t.FlushFull?
    case WakeUp => t.PopAsleep? || t.PushAsleep?
    case Execute => t.Executing?
  }

  predicate PopperSleeps(ts: seq<Thread>) {
    exists k :: 0 <= k < |ts| && ts[k].PopAsleep?
  }

  predicate PusherSleeps(ts: seq<Thread>) {
    exists k :: 0 <= k < |ts| && ts[k].PushAsleep?
  }

  /** notify_one wakes one waiting thread, any of them, and nobody only when nobody waits. */
  predicate Enabled(s: State, step: Step) {
    && step.i < |s.threads| && Ready(s.threads[step.i], step.act)
    && (step.act.NotifyEmpty? && PopperSleeps(s.threads) ==>
          step.act.j < |s.threads| && s.threads[step.act.j].PopAsleep?)
    && (step.act.NotifyFull? && PusherSleeps(s.threads) ==>
          step.act.j < |s.threads| && s.threads[step.act.j].PushAsleep?)
  }

  function Woken(t: Thread): Thread {
    match t
    case PopAsleep => PopWoken
    case PushAsleep(job) => PushWoken(job)
    case _ => t
  }

  /** A pusher has to wait when the queue is full; a queue of size 0 never has room. */
  predicate Full(s: State, cap: nat) {
    cap == 0 || |s.queue| >= cap
  }

  /** Where the stepping thread goes. */
  function Target(s: State, t: Thread, act: Act, cap: nat): Thread
    requires Ready(t, act)
  {
    match act
    case StartPop => Popping
    case StartPush(job) => Pushing(job)
    case LockPop => if !s.alive then Idle else if |s.queue| == 0 then PopAsleep else PopNotify(s.queue[0])
    case LockPush => if !s.alive then Idle else if Full(s, cap) then PushAsleep(t.job) else PushNotify
    case LockFlush => if s.alive then FlushEmpty else Idle
    case NotifyEmpty(_) => Idle
    case NotifyFull(_) => Executing(t.job)
    case NotifyAllEmpty => FlushFull
    case NotifyAllFull => Idle
    case WakeUp => Woken(t)
    case Execute => Idle
  }

  /** What the step does to the queue, under the mutex, and to the history. */
  function Shared(s: State, t: Thread, act: Act, cap: nat): State
    requires Ready(t, act)
  {
    match act
    case LockPop =>
      if s.alive && |s.queue| > 0 then s.(queue := s.queue[1..], popped := s.popped + [s.queue[0]]) else s
    case LockPush =>
      if s.alive && !Full(s, cap) then s.(queue := s.queue + [t.job], accepted := s.accepted + [t.job]) else s
    case LockFlush => s.(alive := false)
    case Execute => s.(executed := s.executed + [t.job])
    case _ => s
  }

  /** Whom the step wakes. */
  function Notified(ts: seq<Thread>, act: Act): (r: seq<Thread>)
    ensures |r| == |ts|
  {
    match act
    case NotifyEmpty(j) => if j < |ts| && ts[j].PopAsleep? then ts[j := Woken(ts[j])] else ts
    case NotifyFull(j) => if j < |ts| && ts[j].PushAsleep? then ts[j := Woken(ts[j])] else ts
    case NotifyAllEmpty => seq(|ts|, k requires 0 <= k < |ts| => if ts[k].PopAsleep? then Woken(ts[k]) else ts[k])
    case NotifyAllFull => seq(|ts|, k requires 0 <= k < |ts| => if ts[k].PushAsleep? then Woken(ts[k]) else ts[k])
    case _ => ts
  }

  function Take(s: State, step: Step, cap: nat): State
    requires Enabled(s, step)
  {
    var t := s.threads[step.i];
    Shared(s, t, step.act, cap).(
      threads := Notified(s.threads, step.act)[step.i := Target(s, t, step.act, cap)])
  }

  ghost predicate Init(s: State) {
    && s.queue == s.accepted == s.popped == s.executed == [] && s.alive
    && (forall k :: 0 <= k < |s.threads| ==> s.threads[k].Idle?)
  }

  /** A run: any interleaving of enabled steps from an initial state. */
  ghost predicate Run(states: seq<State>, steps: seq<Step>, cap: nat) {
    && |states| == |steps| + 1 && Init(states[0])
    && (forall k :: 0 <= k < |steps| ==>
          Enabled(states[k], steps[k]) && states[k + 1] == Take(states[k], steps[k], cap))
  }

  // ----- Counting threads ------------------------------------------------------------------------------

  // Holder(job): took this job and did not execute it yet.
  datatype Kind = WokenPopper | WokenPusher | OwesEmpty | OwesFull | Flusher | Holder(job: Job)

  predicate Is(t: Thread, kind: Kind) {
    match kind
    case WokenPopper => t.PopWoken?
    case WokenPusher => t.PushWoken?
    case OwesEmpty => t.PushNotify?
    case OwesFull => t.PopNotify?
    case Flusher => t.FlushEmpty? || t.FlushFull?
    case Holder(job) => (t.PopNotify? || t.Executing?) && t.job == job
  }

  function Number(ts: seq<Thread>, kind: Kind): nat {
    if |ts| == 0 then 0 else Number(ts[..|ts| - 1], kind) + if Is(ts[|ts| - 1], kind) then 1 else 0
  }

  function Gain(t: Thread, u: Thread, kind: Kind): int {
    (if Is(u, kind) then 1 else 0) - if Is(t, kind) then 1 else 0
  }

  lemma {:induction false} NumberUpdate(ts: seq<Thread>, i: nat, t: Thread, kind: Kind)
    requires i < |ts|
    ensures Number(ts[i := t], kind) == Number(ts, kind) + Gain(ts[i], t, kind)
  {
    var n := |ts| - 1;
    if i == n {
      assert ts[i := t][..n] == ts[..n];
    } else {
      assert ts[i := t][..n] == ts[..n][i := t];
      NumberUpdate(ts[..n], i, t, kind);
    }
  }

  lemma {:induction false} NumberSame(ts: seq<Thread>, us: seq<Thread>, kind: Kind)
    requires |ts| == |us| && forall k :: 0 <= k < |ts| ==> Is(ts[k], kind) == Is(us[k], kind)
    ensures Number(ts, kind) == Number(us, kind)
  {
    if |ts| > 0 { NumberSame(ts[..|ts| - 1], us[..|us| - 1], kind); }
  }

  lemma {:induction false} NumberZero(ts: seq<Thread>, kind: Kind)
    ensures Number(ts, kind) == 0 <==> forall k :: 0 <= k < |ts| ==> !Is(ts[k], kind)
  {
    if |ts| > 0 { NumberZero(ts[..|ts| - 1], kind); }
  }

  /** notify_one turns one sleeper into a woken thread. */
  function WokenOne(ts: seq<Thread>, act: Act, kind: Kind): nat {
    if kind.WokenPopper? && act.NotifyEmpty? && act.j < |ts| && ts[act.j].PopAsleep? then 1
    else if kind.WokenPusher? && act.NotifyFull? && act.j < |ts| && ts[act.j].PushAsleep? then 1
    else 0
  }

  lemma NotifiedNumber(ts: seq<Thread>, act: Act, kind: Kind)
    requires act.NotifyAllEmpty? || act.NotifyAllFull? ==> kind.Holder? || kind.Flusher?
    ensures Number(Notified(ts, act), kind) == Number(ts, kind) + WokenOne(ts, act, kind)
  {
    match act
    case NotifyEmpty(j) => if j < |ts| { NumberUpdate(ts, j, Woken(ts[j]), kind); }
    case NotifyFull(j) => if j < |ts| { NumberUpdate(ts, j, Woken(ts[j]), kind); }
    case NotifyAllEmpty => NumberSame(ts, Notified(ts, act), kind);
    case NotifyAllFull => NumberSame(ts, Notified(ts, act), kind);
    case _ =>
  }

  /** How a step changes the number of threads of a kind. */
  lemma StepNumber(s: State, step: Step, cap: nat, kind: Kind)
    requires Enabled(s, step)
    requires step.act.NotifyAllEmpty? || step.act.NotifyAllFull? ==> kind.Holder? || kind.Flusher?
    ensures Number(Take(s, step, cap).threads, kind) ==
            Number(s.threads, kind) + WokenOne(s.threads, step.act, kind)
            + Gain(s.threads[step.i], Target(s, s.threads[step.i], step.act, cap), kind)
  {
    hide Number;
    var t := s.threads[step.i];
    NotifiedNumber(s.threads, step.act, kind);
    NumberUpdate(Notified(s.threads, step.act), step.i, Target(s, t, step.act, cap), kind);
    assert Notified(s.threads, step.act)[step.i] == t;
  }

  // ----- The invariants ----------------------------------------------------------------------------------

  /** Nothing is lost, doubled or reordered, and the queue stays within its capacity. */
  ghost predicate Conserved(s: State, cap: nat) {
    && s.accepted == s.popped + s.queue
    && |s.queue| <= cap
    && forall job :: multiset(s.popped)[job] == multiset(s.executed)[job] + Number(s.threads, Holder(job))
  }

  /** No wake-up is lost: whatever a sleeping thread waits for is already on its way to some thread. */
  ghost predicate WakeUps(s: State, cap: nat) {
    && (s.alive && PopperSleeps(s.threads) ==>
          |s.queue| <= Number(s.threads, OwesEmpty) + Number(s.threads, WokenPopper))
    && (s.alive && PusherSleeps(s.threads) ==>
          cap - |s.queue| <= Number(s.threads, OwesFull) + Number(s.threads, WokenPusher))
  }

  /** Only the thread that flushed notifies, and it leaves nobody asleep behind it. */
  ghost predicate Flushing(s: State) {
    && Number(s.threads, Flusher) <= (if s.alive then 0 else 1)
    && (!s.alive && PopperSleeps(s.threads) ==> exists k :: 0 <= k < |s.threads| && s.threads[k].FlushEmpty?)
    && (!s.alive && PusherSleeps(s.threads) ==> Number(s.threads, Flusher) > 0)
  }

  ghost predicate Inv(s: State, cap: nat) {
    Conserved(s, cap) && WakeUps(s, cap) && Flushing(s)
  }

  // ----- Every step keeps them -----------------------------------------------------------------------------

  lemma InitInv(s: State, cap: nat)
    requires Init(s)
    ensures Inv(s, cap)
  {
    forall kind ensures Number(s.threads, kind) == 0 { NumberZero(s.threads, kind); }
  }

  lemma Appended(jobs: seq<Job>, x: Job, job: Job)
    ensures multiset(jobs + [x])[job] == multiset(jobs)[job] + if x == job then 1 else 0
  {
  }

  /** A job comes into a thread's hand when it is popped and leaves it when it is executed. */
  lemma HolderGain(s: State, t: Thread, act: Act, cap: nat, job: Job)
    requires Ready(t, act)
    ensures Gain(t, Target(s, t, act, cap), Holder(job)) ==
            if act.LockPop? && s.alive && |s.queue| > 0 && s.queue[0] == job then 1
            else if act.Execute? && t.job == job then -1
            else 0
  {
  }

  lemma StepHeld(s: State, step: Step, cap: nat, job: Job)
    requires Enabled(s, step) && multiset(s.popped)[job] == multiset(s.executed)[job] + Number(s.threads, Holder(job))
    ensures var r := Take(s, step, cap);
            multiset(r.popped)[job] == multiset(r.executed)[job] + Number(r.threads, Holder(job))
  {
    hide Number, Notified, Target, Gain, Full;
    StepNumber(s, step, cap, Holder(job));
    HolderGain(s, s.threads[step.i], step.act, cap, job);
    match step.act
    case LockPop => if s.alive && |s.queue| > 0 { Appended(s.popped, s.queue[0], job); }
    case Execute => Appended(s.executed, s.threads[step.i].job, job);
    case _ =>
  }

  lemma StepFifo(s: State, step: Step, cap: nat)
    requires Enabled(s, step) && s.accepted == s.popped + s.queue && |s.queue| <= cap
    ensures var r := Take(s, step, cap);
            r.accepted == r.popped + r.queue && |r.queue| <= cap
  {
  }

  lemma StepConserved(s: State, step: Step, cap: nat)
    requires Conserved(s, cap) && Enabled(s, step)
    ensures Conserved(Take(s, step, cap), cap)
  {
    hide Number, Take, Enabled;
    StepFifo(s, step, cap);
    forall job { StepHeld(s, step, cap, job); }
  }

  /** A sleeper after a step slept before it, or is the stepping thread. */
  lemma StepSleepers(s: State, step: Step, cap: nat)
    requires Enabled(s, step)
    ensures PopperSleeps(Take(s, step, cap).threads) ==>
              PopperSleeps(s.threads) || (step.act.LockPop? && s.alive && |s.queue| == 0)
    ensures PusherSleeps(Take(s, step, cap).threads) ==>
              PusherSleeps(s.threads) || (step.act.LockPush? && s.alive && Full(s, cap))
  {
  }

  lemma StepPoppers(s: State, step: Step, cap: nat)
    requires WakeUps(s, cap) && Enabled(s, step) && Flushing(s)
    requires Take(s, step, cap).alive && PopperSleeps(Take(s, step, cap).threads)
    ensures var r := Take(s, step, cap);
            |r.queue| <= Number(r.threads, OwesEmpty) + Number(r.threads, WokenPopper)
  {
    hide Number;
    StepSleepers(s, step, cap);
    NumberZero(s.threads, Flusher);
    StepNumber(s, step, cap, OwesEmpty);
    StepNumber(s, step, cap, WokenPopper);
  }

  lemma StepPushers(s: State, step: Step, cap: nat)
    requires WakeUps(s, cap) && Enabled(s, step) && Flushing(s)
    requires Take(s, step, cap).alive && PusherSleeps(Take(s, step, cap).threads)
    ensures var r := Take(s, step, cap);
            cap - |r.queue| <= Number(r.threads, OwesFull) + Number(r.threads, WokenPusher)
  {
    hide Number;
    StepSleepers(s, step, cap);
    NumberZero(s.threads, Flusher);
    StepNumber(s, step, cap, OwesFull);
    StepNumber(s, step, cap, WokenPusher);
  }

  lemma StepFlushing(s: State, step: Step, cap: nat)
    requires Enabled(s, step) && Flushing(s)
    ensures Flushing(Take(s, step, cap))
  {
    hide Number;
    var r := Take(s, step, cap);
    StepSleepers(s, step, cap);
    StepNumber(s, step, cap, Flusher);
    NumberZero(s.threads, Flusher);
    if !r.alive && PopperSleeps(r.threads) {
      if s.alive {
        assert r.threads[step.i].FlushEmpty?;
      } else {
        var k :| 0 <= k < |s.threads| && s.threads[k].FlushEmpty?;
        assert r.threads[k].FlushEmpty?;
      }
    }
  }

  lemma StepInv(s: State, step: Step, cap: nat)
    requires Inv(s, cap) && Enabled(s, step)
    ensures Inv(Take(s, step, cap), cap)
  {
    hide Number, Take, Conserved, Flushing;
    var r := Take(s, step, cap);
    StepConserved(s, step, cap);
    StepFlushing(s, step, cap);
    if r.alive && PopperSleeps(r.threads) { StepPoppers(s, step, cap); }
    if r.alive && PusherSleeps(r.threads) { StepPushers(s, step, cap); }
  }

  // ----- Whole runs ----------------------------------------------------------------------------------------

  /** In every interleaving of any number of threads, every state has all the invariants. */
  lemma {:induction false} EveryState(states: seq<State>, steps: seq<Step>, cap: nat, k: nat)
    requires Run(states, steps, cap) && k < |states|
    ensures Inv(states[k], cap)
  {
    hide Take, Enabled, Inv, Init;
    if k == 0 {
      InitInv(states[0], cap);
    } else {
      EveryState(states, steps, cap, k - 1);
      StepInv(states[k - 1], steps[k - 1], cap);
    }
  }

  /** The history only grows, and once flushed nothing is accepted or popped any more. */
  lemma {:induction false} History(states: seq<State>, steps: seq<Step>, cap: nat, i: nat, k: nat)
    requires Run(states, steps, cap) && i <= k < |states|
    ensures states[i].accepted <= states[k].accepted && states[i].popped <= states[k].popped
    ensures !states[i].alive ==>
              !states[k].alive && states[k].accepted == states[i].accepted && states[k].popped == states[i].popped
              && states[k].queue == states[i].queue
  {
    if i < k {
      History(states, steps, cap, i, k - 1);
      var s, step := states[k - 1], steps[k - 1];
      assert states[k - 1 + 1] == Take(s, step, cap);
    }
  }

  /** Nobody can go on by itself: every thread is idle or asleep. */
  ghost predicate Quiet(s: State) {
    forall k :: 0 <= k < |s.threads| ==> s.threads[k].Idle? || s.threads[k].PopAsleep? || s.threads[k].PushAsleep?
  }

  /**
   * No run gets stuck: when nobody can go on, a consumer sleeps only at an empty queue and a producer only at
   * a full one, never both unless the capacity is 0, and after a flush nobody sleeps. Every popped job
   * has then been executed, each as often as it was popped.
   */
  lemma NoLostWakeUp(states: seq<State>, steps: seq<Step>, cap: nat, k: nat)
    requires Run(states, steps, cap) && k < |states| && Quiet(states[k])
    ensures var s := states[k];
            && (s.alive && PopperSleeps(s.threads) ==> s.queue == [])
            && (s.alive && PusherSleeps(s.threads) ==> |s.queue| == cap)
            && (cap > 0 && PopperSleeps(s.threads) ==> !PusherSleeps(s.threads))
            && (!s.alive ==> !PopperSleeps(s.threads) && !PusherSleeps(s.threads))
            && multiset(s.executed) == multiset(s.popped)
  {
    hide Number, Run;
    EveryState(states, steps, cap, k);
    forall kind ensures Number(states[k].threads, kind) == 0 { NumberZero(states[k].threads, kind); }
  }

  /** Once the flushing thread has notified, every thread that slept is awake. */
  lemma FlushedAwake(states: seq<State>, steps: seq<Step>, cap: nat, k: nat)
    requires Run(states, steps, cap) && k < |states| && !states[k].alive
    requires forall i :: 0 <= i < |states[k].threads| ==> !Is(states[k].threads[i], Flusher)
    ensures !PopperSleeps(states[k].threads) && !PusherSleeps(states[k].threads)
  {
    hide Number, Run;
    EveryState(states, steps, cap, k);
    NumberZero(states[k].threads, Flusher);
  }

  /** Each accepted job is executed at most as often as it was accepted, in every state. */
  lemma AtMostOnce(states: seq<State>, steps: seq<Step>, cap: nat, k: nat)
    requires Run(states, steps, cap) && k < |states|
    ensures states[k].accepted == states[k].popped + states[k].queue && |states[k].queue| <= cap
    ensures multiset(states[k].executed) <= multiset(states[k].accepted)
    ensures forall job :: multiset(states[k].accepted)[job] ==
                          multiset(states[k].executed)[job] + Number(states[k].threads, Holder(job))
                          + multiset(states[k].queue)[job]
  {
    hide Number, Run;
    EveryState(states, steps, cap, k);
    assert multiset(states[k].accepted) == multiset(states[k].popped) + multiset(states[k].queue);
  }

  /** Stopping the pool: what was popped by then is executed, what was still queued is dropped. */
  lemma Stopped(states: seq<State>, steps: seq<Step>, cap: nat, i: nat, k: nat)
    requires Run(states, steps, cap) && i <= k < |states| && !states[i].alive && Quiet(states[k])
    ensures multiset(states[k].executed) == multiset(states[i].popped)
    ensures states[k].accepted == states[i].popped + states[i].queue
    ensures multiset(states[k].executed) == multiset(states[k].accepted) <==> states[i].queue == []
  {
    hide Run, Quiet, Number;
    NothingAdded(states[i].popped, states[i].queue);
    History(states, steps, cap, i, k);
    NoLostWakeUp(states, steps, cap, k);
    AtMostOnce(states, steps, cap, k);
  }

  lemma NothingAdded(a: seq<Job>, b: seq<Job>)
    ensures multiset(a) == multiset(a + b) <==> b == []
  {
    if b != [] {
      assert multiset(a + b) == multiset(a) + multiset(b) && multiset(b)[b[0]] > 0;
    }
  }

  /** A step of the only thread, which wakes nobody. */
  lemma Alone(s: State, t: Thread, act: Act, cap: nat)
    requires s.threads == [t] && Ready(t, act) && !act.WakeUp?
    ensures Enabled(s, Step(0, act))
    ensures Take(s, Step(0, act), cap) == Shared(s, t, act, cap).(threads := [Target(s, t, act, cap)])
  {
    assert !PopperSleeps(s.threads) && !PusherSleeps(s.threads);
    assert Notified([t], act) == [t];
  }

  /** A job pushed and never popped before the flush is accepted and not executed. */
  lemma DropsAJob() returns (states: seq<State>, steps: seq<Step>)
    ensures Run(states, steps, 1) && !states[|steps|].alive && Quiet(states[|steps|])
    ensures states[|steps|].accepted == [1] && states[|steps|].executed == []
  {
    hide Take, Enabled;
    var s0 := State([], true, [Idle], [], [], []);
    var s1 := s0.(threads := [Pushing(1)]);
    var s2 := s1.(queue := [1], accepted := [1], threads := [PushNotify]);
    var s3 := s2.(threads := [Idle]);
    var s4 := s3.(alive := false, threads := [FlushEmpty]);
    var s5 := s4.(threads := [FlushFull]);
    var s6 := s5.(threads := [Idle]);
    Alone(s0, Idle, StartPush(1), 1);
    Alone(s1, Pushing(1), LockPush, 1);
    Alone(s2, PushNotify, NotifyEmpty(0), 1);
    Alone(s3, Idle, LockFlush, 1);
    Alone(s4, FlushEmpty, NotifyAllEmpty, 1);
    Alone(s5, FlushFull, NotifyAllFull, 1);
    states := [s0, s1, s2, s3, s4, s5, s6];
    steps := [Step(0, StartPush(1)), Step(0, LockPush), Step(0, NotifyEmpty(0)), Step(0, LockFlush),
              Step(0, NotifyAllEmpty), Step(0, NotifyAllFull)];
  }

  lemma {:induction false} NoRoom(states: seq<State>, steps: seq<Step>, k: nat)
    requires Run(states, steps, 0) && k < |states|
    ensures states[k].accepted == []
  {
    if k > 0 {
      NoRoom(states, steps, k - 1);
      assert states[k - 1 + 1] == Take(states[k - 1], steps[k - 1], 0);
    }
  }

  /** Some run accepts a job exactly when the capacity is positive; with the default of 0 pushers only wait. */
  lemma AcceptsIff(cap: nat)
    ensures (exists states: seq<State>, steps :: Run(states, steps, cap) && states[|steps|].accepted != []) <==> cap > 0
  {
    if cap > 0 {
      var s0 := State([], true, [Idle], [], [], []);
      var s1 := Take(s0, Step(0, StartPush(1)), cap);
      var s2 := Take(s1, Step(0, LockPush), cap);
      var states, steps := [s0, s1, s2], [Step(0, StartPush(1)), Step(0, LockPush)];
      assert Run(states, steps, cap) && states[|steps|].accepted != [];
    } else {
      forall states: seq<State>, steps | Run(states, steps, cap) ensures states[|steps|].accepted == [] {
        NoRoom(states, steps, |steps|);
      }
    }
  }

  // ----- Every call comes to an end -------------------------------------------------------------------------

  /** A step of a call that is under way; calls begin with the other steps. */
  predicate Own(step: Step) {
    !step.act.StartPop? && !step.act.StartPush? && !step.act.LockFlush?
  }

  /** How far a thread is from idle when the queue is flushed. */
  function Distance(t: Thread): nat {
    match t
    case Idle => 0
    case PopNotify(_) => 2
    case FlushEmpty => 2
    case PopAsleep => 2
    case PushAsleep(_) => 2
    case _ => 1
  }

  /** What a thread among n may still do, counting whom it may wake. */
  function Budget(t: Thread, n: nat): nat {
    match t
    case Idle => 0
    case Executing(_) => 1
    case PushNotify => 2
    case PopNotify(_) => 3
    case PopAsleep => 3
    case PushAsleep(_) => 3
    case FlushFull => n + 1
    case FlushEmpty => 2 * n + 2
    case _ => 4
  }

  function Distances(ts: seq<Thread>): nat {
    if |ts| == 0 then 0 else Distances(ts[..|ts| - 1]) + Distance(ts[|ts| - 1])
  }

  function Budgets(ts: seq<Thread>, n: nat): nat {
    if |ts| == 0 then 0 else Budgets(ts[..|ts| - 1], n) + Budget(ts[|ts| - 1], n)
  }

  lemma {:induction false} DistancesFall(ts: seq<Thread>, us: seq<Thread>, i: nat)
    requires |ts| == |us| && i < |ts| && Distance(us[i]) < Distance(ts[i])
    requires forall k :: 0 <= k < |ts| ==> Distance(us[k]) <= Distance(ts[k])
    ensures Distances(us) < Distances(ts)
  {
    var n := |ts| - 1;
    if i < n { DistancesFall(ts[..n], us[..n], i); } else { DistancesNoMore(ts[..n], us[..n]); }
  }

  lemma {:induction false} DistancesNoMore(ts: seq<Thread>, us: seq<Thread>)
    requires |ts| == |us| && forall k :: 0 <= k < |ts| ==> Distance(us[k]) <= Distance(ts[k])
    ensures Distances(us) <= Distances(ts)
  {
    if |ts| > 0 { DistancesNoMore(ts[..|ts| - 1], us[..|us| - 1]); }
  }

  lemma {:induction false} DistancesBounded(ts: seq<Thread>)
    ensures Distances(ts) <= 2 * |ts|
  {
    if |ts| > 0 { DistancesBounded(ts[..|ts| - 1]); }
  }

  lemma {:induction false} BudgetUpdate(ts: seq<Thread>, i: nat, t: Thread, n: nat)
    requires i < |ts|
    ensures Budgets(ts[i := t], n) == Budgets(ts, n) - Budget(ts[i], n) + Budget(t, n)
  {
    var m := |ts| - 1;
    if i == m {
      assert ts[i := t][..m] == ts[..m];
    } else {
      assert ts[i := t][..m] == ts[..m][i := t];
      BudgetUpdate(ts[..m], i, t, n);
    }
  }

  lemma {:induction false} BudgetsRise(ts: seq<Thread>, us: seq<Thread>, n: nat)
    requires |ts| == |us| && forall k :: 0 <= k < |ts| ==> Budget(us[k], n) <= Budget(ts[k], n) + 1
    ensures Budgets(us, n) <= Budgets(ts, n) + |ts|
  {
    if |ts| > 0 { BudgetsRise(ts[..|ts| - 1], us[..|us| - 1], n); }
  }

  /** Whoever is notified is woken, and nobody else changes. */
  lemma NotifiedOthers(ts: seq<Thread>, act: Act, k: nat)
    requires k < |ts|
    ensures Notified(ts, act)[k] == ts[k] || Notified(ts, act)[k] == Woken(ts[k])
    ensures Notified(ts, act)[k] != ts[k] ==> ts[k].PopAsleep? || ts[k].PushAsleep?
  {
  }

  /** On a flushed queue every step of a call brings its thread closer to idle and no thread away from it. */
  lemma FlushedStep(s: State, step: Step, cap: nat)
    requires !s.alive && Enabled(s, step) && Own(step)
    ensures var r := Take(s, step, cap);
            !r.alive && |r.threads| == |s.threads| && Distances(r.threads) < Distances(s.threads)
  {
    hide Distances, Notified;
    var r := Take(s, step, cap);
    forall k | 0 <= k < |s.threads| ensures Distance(r.threads[k]) <= Distance(s.threads[k]) {
      NotifiedOthers(s.threads, step.act, k);
    }
    DistancesFall(s.threads, r.threads, step.i);
  }

  /** A sequence of states through the given steps. */
  ghost predicate Chain(states: seq<State>, steps: seq<Step>, cap: nat) {
    && |states| == |steps| + 1
    && (forall k :: 0 <= k < |steps| ==>
          Enabled(states[k], steps[k]) && states[k + 1] == Take(states[k], steps[k], cap))
  }

  /** A flushed queue winds down: without new calls at most two more steps for every thread. */
  lemma {:induction false} WindsDown(states: seq<State>, steps: seq<Step>, cap: nat, k: nat)
    requires Chain(states, steps, cap) && !states[0].alive && k <= |steps|
    requires forall j :: 0 <= j < |steps| ==> Own(steps[j])
    ensures !states[k].alive && k + Distances(states[k].threads) <= Distances(states[0].threads)
    ensures k <= 2 * |states[0].threads|
  {
    hide Take, Enabled, Distances, Own;
    DistancesBounded(states[0].threads);
    if k > 0 {
      WindsDown(states, steps, cap, k - 1);
      assert states[k - 1 + 1] == Take(states[k - 1], steps[k - 1], cap);
      FlushedStep(states[k - 1], steps[k - 1], cap);
    }
  }

  /** One thread goes on and at most one other is woken, or the flusher wakes everybody: the budget falls. */
  lemma BudgetFalls(s: State, step: Step, cap: nat)
    requires Enabled(s, step) && Own(step) && !step.act.WakeUp?
    ensures var n, ts := |s.threads|, Take(s, step, cap).threads;
            |ts| == n && Budgets(ts, n) < Budgets(s.threads, n)
  {
    hide Budgets;
    var n, t := |s.threads|, s.threads[step.i];
    var woken := Notified(s.threads, step.act);
    match step.act {
      case NotifyEmpty(j) =>
        if j < n && s.threads[j].PopAsleep? { BudgetUpdate(s.threads, j, PopWoken, n); }
      case NotifyFull(j) =>
        if j < n && s.threads[j].PushAsleep? { BudgetUpdate(s.threads, j, Woken(s.threads[j]), n); }
      case NotifyAllEmpty => BudgetsRise(s.threads, woken, n);
      case NotifyAllFull => BudgetsRise(s.threads, woken, n);
      case _ =>
    }
    assert woken[step.i] == t;
    BudgetUpdate(woken, step.i, Target(s, t, step.act, cap), n);
  }

  /** Nobody spins: without new calls and spurious wake-ups only so many steps are possible, flushed or not. */
  lemma {:induction false} NoSpinning(states: seq<State>, steps: seq<Step>, cap: nat, k: nat)
    requires Chain(states, steps, cap) && k <= |steps|
    requires forall j :: 0 <= j < |steps| ==> Own(steps[j]) && !steps[j].act.WakeUp?
    ensures |states[k].threads| == |states[0].threads|
    ensures var n := |states[0].threads|;
            k + Budgets(states[k].threads, n) <= Budgets(states[0].threads, n)
  {
    hide Take, Enabled, Budgets, Own;
    if k > 0 {
      NoSpinning(states, steps, cap, k - 1);
      assert states[k - 1 + 1] == Take(states[k - 1], steps[k - 1], cap);
      BudgetFalls(states[k - 1], steps[k - 1], cap);
    }
  }

  /** Somebody can go on by itself unless every thread is idle or asleep. */
  lemma GoesOn(s: State, i: nat) returns (step: Step)
    requires i < |s.threads| && !s.threads[i].Idle? && !s.threads[i].PopAsleep? && !s.threads[i].PushAsleep?
    ensures Enabled(s, step) && Own(step) && !step.act.WakeUp?
  {
    match s.threads[i]
    case Popping => step := Step(i, LockPop);
    case PopWoken => step := Step(i, LockPop);
    case Pushing(_) => step := Step(i, LockPush);
    case PushWoken(_) => step := Step(i, LockPush);
    case Executing(_) => step := Step(i, Execute);
    case FlushEmpty => step := Step(i, NotifyAllEmpty);
    case FlushFull => step := Step(i, NotifyAllFull);
    case PushNotify =>
      var j: nat := 0;
      if PopperSleeps(s.threads) { j :| 0 <= j < |s.threads| && s.threads[j].PopAsleep?; }
      step := Step(i, NotifyEmpty(j));
    case PopNotify(_) =>
      var j: nat := 0;
      if PusherSleeps(s.threads) { j :| 0 <= j < |s.threads| && s.threads[j].PushAsleep?; }
      step := Step(i, NotifyFull(j));
  }

  /** When no call can take a step, the queue is quiet; after a flush that means that every call has returned. */
  lemma AllReturned(states: seq<State>, steps: seq<Step>, cap: nat, k: nat)
    requires Run(states, steps, cap) && k < |states|
    requires forall step :: Enabled(states[k], step) && Own(step) ==> step.act.WakeUp?
    ensures Quiet(states[k])
    ensures !states[k].alive ==> forall i :: 0 <= i < |states[k].threads| ==> states[k].threads[i].Idle?
  {
    hide Run, Enabled, Own;
    var s := states[k];
    forall i | 0 <= i < |s.threads| ensures s.threads[i].Idle? || s.threads[i].PopAsleep? || s.threads[i].PushAsleep? {
      if !s.threads[i].Idle? && !s.threads[i].PopAsleep? && !s.threads[i].PushAsleep? {
        var step := GoesOn(s, i);
      }
    }
    NoLostWakeUp(states, steps, cap, k);
  }

  // ----- The queue object ----------------------------------------------------------------------------------

  /** What the mutex guards, and the code that runs while a thread holds it: each method is one step above. */
  class Queue {
    const maxSize: nat
    var items: seq<Job>
    var alive: bool

    constructor (maxSize: nat)
      ensures this.maxSize == maxSize && items == [] && alive
    {
      this.maxSize, items, alive := maxSize, [], true;
    }

    /** The guarded fields as a state of the machine, without its threads. */
    function Seen(): State
      reads this
    {
      State(items, alive, [], [], [], [])
    }

    /** From taking the mutex in pop to releasing it, by waiting or by unlocking. */
    method Pop() returns (next: Thread)
      modifies this
      ensures forall t :: Ready(t, LockPop) ==>
                && items == Shared(old(Seen()), t, LockPop, maxSize).queue && alive == old(alive)
                && next == Target(old(Seen()), t, LockPop, maxSize)
    {
      if alive && |items| == 0 { return PopAsleep; }
      if alive {
        var job := items[0];
        items := items[1..];
        return PopNotify(job);
      }
      return Idle;
    }

    method Push(job: Job) returns (next: Thread)
      modifies this
      ensures forall t :: Ready(t, LockPush) && t.job == job ==>
                && items == Shared(old(Seen()), t, LockPush, maxSize).queue && alive == old(alive)
                && next == Target(old(Seen()), t, LockPush, maxSize)
    {
      if alive && (maxSize == 0 || |items| >= maxSize) { return PushAsleep(job); }
      if alive {
        items := items + [job];
        return PushNotify;
      }
      return Idle;
    }

    method Flush() returns (next: Thread)
      modifies this
      ensures items == Shared(old(Seen()), Idle, LockFlush, maxSize).queue && !alive
      ensures next == Target(old(Seen()), Idle, LockFlush, maxSize)
    {
      if alive {
        alive := false;
        return FlushEmpty;
      }
      return Idle;
    }
  }
}
