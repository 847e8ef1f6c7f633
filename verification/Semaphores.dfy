/** The semaphore of the blocking queue, as a step machine: an atomic counter in
    front of a kernel semaphore, one waiting thread and one signalling thread. A
    step performs one atomic operation on the counter or on the kernel semaphore.
    The comments give the lines of include/atomicops.h. */
module Semaphores {

  /** `tryWait()`, `wait()` or `wait(timeout_usecs)`; a negative timeout is an
      untimed wait. */
  datatype WaitOp = TryWait | Wait(timed: bool)

  datatype WaitAt =
    | TryLoad               // 620
    | TryTake               // 622
    | SpinLoad(left: nat)   // 576-578
    | SpinTake              // 580
    | Decrement             // 585-590
    | KernelWait            // 590
    | KernelTimedWait       // 593
    | Undo                  // 602
    | Redo                  // 606
    | KernelTry             // 607

  /** `Granted`: the call returned true. `Refused`: it returned false. */
  datatype WaitAnswer = NotCalled | Granted | Refused

  datatype Waiter =
    | WIdle(answer: WaitAnswer)
    | WBusy(op: WaitOp, spins: nat, at: WaitAt)

  datatype Signaller =
    | SIdle
    | Add(n: nat)           // 642-645
    | Post                  // 646
    | SFault

  datatype Sema = Sema(count: int, kernel: nat, w: Waiter, s: Signaller)

  /** One scheduling decision. `timeout` lets the kernel's timed wait give up, even
      if a post has arrived; how often a wait spins is up to the caller here. */
  datatype Action =
    | CallWait(op: WaitOp, spins: nat)
    | StepWaiter(timeout: bool)
    | CallSignal(n: nat)
    | StepSignaller

  function WaitStep(m: Sema, timeout: bool): Sema
    requires m.w.WBusy?
  {
    var op, spins := m.w.op, m.w.spins;
    match m.w.at
    case TryLoad =>
      if m.count > 0 then m.(w := WBusy(op, spins, TryTake))
      else if op == TryWait then m.(w := WIdle(Refused))
      else m.(w := WBusy(op, spins, SpinLoad(spins)))
    case TryTake => m.(count := m.count - 1, w := WIdle(Granted))
    case SpinLoad(left) =>
      if left == 0 then m.(w := WBusy(op, spins, Decrement))
      else if m.count > 0 then m.(w := WBusy(op, spins, SpinTake))
      else m.(w := WBusy(op, spins, SpinLoad(left - 1)))
    case SpinTake => m.(count := m.count - 1, w := WIdle(Granted))
    case Decrement =>
      m.(count := m.count - 1,
         w := if m.count > 0 then WIdle(Granted)
              else WBusy(op, spins, if op == Wait(true) then KernelTimedWait else KernelWait))
    case KernelWait =>
      if m.kernel > 0 then m.(kernel := m.kernel - 1, w := WIdle(Granted)) else m
    case KernelTimedWait =>
      if timeout then m.(w := WBusy(op, spins, Undo))
      else if m.kernel > 0 then m.(kernel := m.kernel - 1, w := WIdle(Granted))
      else m
    case Undo =>
      m.(count := m.count + 1, w := if m.count < 0 then WIdle(Refused) else WBusy(op, spins, Redo))
    case Redo =>
      m.(count := m.count - 1, w := WBusy(op, spins, if m.count > 0 then KernelTry else Undo))
    case KernelTry =>
      if m.kernel > 0 then m.(kernel := m.kernel - 1, w := WIdle(Granted))
      else m.(w := WBusy(op, spins, Undo))
  }

  function SignalStep(m: Sema): Sema {
    match m.s
    case Add(n) =>
      m.(count := m.count + n, s := if m.count < -1 then SFault else if m.count < 0 then Post else SIdle)
    case Post => m.(kernel := m.kernel + 1, s := SIdle)
    case _ => m
  }

  function Step(m: Sema, a: Action): Sema {
    match a
    case CallWait(op, spins) => if m.w.WIdle? then m.(w := WBusy(op, spins, TryLoad)) else m
    case CallSignal(n) => if m.s.SIdle? then m.(s := Add(n)) else m
    case StepWaiter(timeout) => if m.w.WBusy? then WaitStep(m, timeout) else m
    case StepSignaller => SignalStep(m)
  }

  /** What an observer counts: permits added at 642, and waits that returned true. */
  datatype Tally = Tally(signalled: int, granted: int)

  function Observe(m: Sema, t: Tally, a: Action): Tally {
    if a.StepSignaller? && m.s.Add? then t.(signalled := t.signalled + m.s.n)
    else if a.StepWaiter? && m.w.WBusy? && Step(m, a).w == WIdle(Granted) then t.(granted := t.granted + 1)
    else t
  }

  datatype Config = Config(m: Sema, t: Tally)

  function Next(c: Config, a: Action): Config {
    Config(Step(c.m, a), Observe(c.m, c.t, a))
  }

  function Initial(count: nat): Config {
    Config(Sema(count, 0, WIdle(NotCalled), SIdle), Tally(0, 0))
  }

  function After(c: Config, schedule: seq<Action>, n: nat): Config
    requires n <= |schedule|
  {
    if n == 0 then c else Next(After(c, schedule, n - 1), schedule[n - 1])
  }

  // ---- The invariant ----

  /** The waiter has taken one off the counter without a permit yet. */
  predicate Outstanding(w: Waiter) {
    w.WBusy? && (w.at.KernelWait? || w.at.KernelTimedWait? || w.at.Undo? || w.at.KernelTry?)
  }

  /** Posts to the kernel semaphore that the waiter has yet to consume: those made,
      and the one the signaller is about to make. */
  function Owed(m: Sema): int {
    m.kernel + (if m.s.Post? then 1 else 0)
  }

  ghost predicate Inv(c: Config, initial: int) {
    var m := c.m;
    && !m.s.SFault?
    && initial + c.t.signalled == c.t.granted + m.count + (if Outstanding(m.w) then 1 else 0)
    && (if Outstanding(m.w) then
          && m.count >= -1 && Owed(m) == (if m.count >= 0 then 1 else 0)
          && (m.w.at.KernelTry? ==> m.count >= 0)
        else if m.w.WBusy? && m.w.at.Redo? then m.count >= 1 && Owed(m) == 1
        else
          && m.count >= 0 && Owed(m) == 0
          && (m.w.WBusy? && (m.w.at.TryTake? || m.w.at.SpinTake?) ==> m.count >= 1))
    && (m.w.WBusy? && (m.w.at.KernelTimedWait? || m.w.at.Undo? || m.w.at.Redo? || m.w.at.KernelTry?) ==>
        m.w.op == Wait(true))
    && (m.w.WBusy? && m.w.at.KernelWait? ==> m.w.op == Wait(false))
    && (m.w.WBusy? && !m.w.at.TryLoad? && !m.w.at.TryTake? ==> m.w.op != TryWait)
  }

  /** The addition at 642 adds a permit, or finds nobody waiting. `signal` may be
      called with a count of 0; what happens otherwise is stated at the end. */
  predicate SafeAddition(c: Config, a: Action) {
    a.StepSignaller? && c.m.s.Add? ==> c.m.s.n >= 1 || c.m.count >= 0
  }

  /** So it is at each of the first `n` actions. */
  predicate SafeRun(c: Config, schedule: seq<Action>, n: nat)
    requires n <= |schedule|
  {
    n > 0 ==> SafeRun(c, schedule, n - 1) && SafeAddition(After(c, schedule, n - 1), schedule[n - 1])
  }

  lemma StepKeeps(c: Config, a: Action, initial: int)
    requires Inv(c, initial) && SafeAddition(c, a)
    ensures Inv(Next(c, a), initial)
  {
  }

  lemma {:induction false} RunKeeps(c: Config, schedule: seq<Action>, n: nat, initial: int)
    requires Inv(c, initial) && n <= |schedule| && SafeRun(c, schedule, n)
    ensures Inv(After(c, schedule, n), initial)
  {
    hide Inv, Next, SafeAddition;
    if n > 0 {
      RunKeeps(c, schedule, n - 1, initial);
      StepKeeps(After(c, schedule, n - 1), schedule[n - 1], initial);
    }
  }

  /** A run in which every call of `signal` adds a permit, as those of the blocking
      queue do, is such a run. */
  lemma {:induction false} AddingIsSafe(c: Config, schedule: seq<Action>, n: nat)
    requires n <= |schedule| && (c.m.s.Add? ==> c.m.s.n >= 1)
    requires forall i :: 0 <= i < |schedule| && schedule[i].CallSignal? ==> schedule[i].n >= 1
    ensures SafeRun(c, schedule, n)
    ensures After(c, schedule, n).m.s.Add? ==> After(c, schedule, n).m.s.n >= 1
  {
    if n > 0 { AddingIsSafe(c, schedule, n - 1); }
  }

  /** A configuration some run leads to in which no addition of 0 meets a waiter. */
  ghost predicate Reachable(c: Config, initial: nat) {
    exists schedule: seq<Action> ::
      SafeRun(Initial(initial), schedule, |schedule|) && c == After(Initial(initial), schedule, |schedule|)
  }

  lemma InitialInv(initial: nat)
    ensures Inv(Initial(initial), initial)
  {
  }

  lemma ReachableInv(c: Config, initial: nat)
    requires Reachable(c, initial)
    ensures Inv(c, initial)
  {
    hide SafeRun, Next, Inv;
    InitialInv(initial);
    var schedule: seq<Action> :|
      SafeRun(Initial(initial), schedule, |schedule|) && c == After(Initial(initial), schedule, |schedule|);
    RunKeeps(Initial(initial), schedule, |schedule|, initial);
  }

  // ---- The main results ----

  /** Conservation: permits put in are permits granted, plus the counter, plus one
      while the waiter's decrement is outstanding. The counter never drops below
      -1, the assertion at 643 never fails, and at most one kernel post is made or
      under way. */
  lemma Conservation(c: Config, initial: nat)
    requires Reachable(c, initial)
    ensures initial + c.t.signalled == c.t.granted + c.m.count + (if Outstanding(c.m.w) then 1 else 0)
    ensures c.m.count >= -1 && !c.m.s.SFault?
    ensures Owed(c.m) <= 1
    ensures c.t.granted <= initial + c.t.signalled
  {
    hide Reachable;
    ReachableInv(c, initial);
  }

  /** When no wait is in progress, whether the last one was granted, was refused or
      timed out while a signal raced with the timeout, the counter is exactly the
      permits not granted, and no kernel post is left behind. */
  lemma WaitsAreExact(c: Config, initial: nat)
    requires Reachable(c, initial) && c.m.w.WIdle?
    ensures c.m.count == initial + c.t.signalled - c.t.granted
    ensures c.m.kernel == 0 && !c.m.s.Post?
  {
    hide Reachable;
    ReachableInv(c, initial);
  }

  /** A wait blocked on the kernel is never left behind by a permit: if no post is
      there or under way, every permit has been granted. */
  lemma NoLostWakeup(c: Config, initial: nat)
    requires Reachable(c, initial) && c.m.w.WBusy? && (c.m.w.at.KernelWait? || c.m.w.at.KernelTimedWait?)
    ensures c.m.kernel == 0 && !c.m.s.Post? <==> c.t.granted == initial + c.t.signalled
  {
    hide Reachable;
    ReachableInv(c, initial);
  }

  /** A wait returns false only if it may, and only at a moment when every permit
      put in has been granted. */
  lemma RefusedWhenNoneLeft(c: Config, initial: int, timeout: bool)
    requires Inv(c, initial) && c.m.w.WBusy? && Next(c, StepWaiter(timeout)).m.w == WIdle(Refused)
    ensures c.m.w.op != Wait(false)
    ensures c.t.granted == initial + c.t.signalled
  {
    hide Owed;
  }

  /** A pass of the retry loop (606-607) fails only while the signaller stands
      between its addition to the counter and its post. */
  lemma FailedPassMeansPostPending(c: Config, initial: nat, timeout: bool)
    requires Reachable(c, initial) && c.m.w.WBusy? && (c.m.w.at.Redo? || c.m.w.at.KernelTry?)
    ensures var w := Next(c, StepWaiter(timeout)).m.w; w.WBusy? && w.at.Undo? ==> c.m.s.Post?
  {
    hide Reachable;
    ReachableInv(c, initial);
  }

  /** How far a pass of the retry loop that began after the post has come. */
  function Stage(w: Waiter): int {
    match w
    case WBusy(_, _, Undo) => 0
    case WBusy(_, _, Redo) => 1
    case WBusy(_, _, KernelTry) => 2
    case WIdle(Granted) => 3
    case _ => -1
  }

  function WaiterSteps(schedule: seq<Action>, n: nat): nat
    requires n <= |schedule|
  {
    if n == 0 then 0 else WaiterSteps(schedule, n - 1) + (if schedule[n - 1].StepWaiter? then 1 else 0)
  }

  lemma StageStep(c: Config, a: Action, initial: int)
    requires Inv(c, initial) && !a.CallWait? && Stage(c.m.w) >= 0 && (Stage(c.m.w) < 3 ==> c.m.kernel > 0)
    ensures var w' := Next(c, a).m.w;
      && Stage(w') == (if a.StepWaiter? && Stage(c.m.w) < 3 then Stage(c.m.w) + 1 else Stage(c.m.w))
      && (Stage(w') < 3 ==> Next(c, a).m.kernel > 0)
  {
  }

  /** A pass of the retry loop that begins after the post succeeds: whatever the
      signaller does meanwhile, after the waiter's three steps the wait has
      returned true. */
  lemma {:induction false} RetryExits(c: Config, schedule: seq<Action>, n: nat, initial: nat)
    requires Reachable(c, initial) && c.m.w.WBusy? && c.m.w.at.Undo? && c.m.kernel > 0
    requires n <= |schedule| && SafeRun(c, schedule, n)
    requires forall i :: 0 <= i < |schedule| ==> !schedule[i].CallWait?
    ensures var c' := After(c, schedule, n);
      && Inv(c', initial)
      && Stage(c'.m.w) == (if WaiterSteps(schedule, n) < 3 then WaiterSteps(schedule, n) else 3)
      && (Stage(c'.m.w) < 3 ==> c'.m.kernel > 0)
  {
    hide Inv, Next, SafeAddition, Reachable, Stage;
    ReachableInv(c, initial);
    assert Stage(c.m.w) == 0 by { StageOfUndo(c.m.w); }
    if n > 0 {
      RetryExits(c, schedule, n - 1, initial);
      StepKeeps(After(c, schedule, n - 1), schedule[n - 1], initial);
      StageStep(After(c, schedule, n - 1), schedule[n - 1], initial);
    }
  }

  lemma StageOfUndo(w: Waiter)
    requires w.WBusy? && w.at.Undo?
    ensures Stage(w) == 0
  {
  }

  // ---- signal(0) ----

  /** From here on, no run grants more permits than were put in. */
  ghost predicate NeverOvergrants(c: Config, initial: int) {
    forall schedule: seq<Action>, n: nat :: n <= |schedule| && SafeRun(c, schedule, n) ==>
      After(c, schedule, n).t.granted <= initial + After(c, schedule, n).t.signalled
  }

  /** The addition at 642 is safe, in that no later run grants more permits than were
      put in, exactly if it adds a permit or nobody waits. So the condition on the
      runs above is the weakest one under which they can be right. */
  lemma SignalExact(c: Config, initial: nat, n: nat)
    requires Reachable(c, initial) && c.m.s == Add(n)
    ensures NeverOvergrants(Next(c, StepSignaller), initial) <==> n >= 1 || c.m.count >= 0
  {
    hide Reachable, SafeRun;
    ReachableInv(c, initial);
    var c' := Next(c, StepSignaller);
    if n >= 1 || c.m.count >= 0 {
      StepKeeps(c, StepSignaller, initial);
      hide Inv;
      forall schedule: seq<Action>, i: nat | i <= |schedule| && SafeRun(c', schedule, i)
        ensures After(c', schedule, i).t.granted <= initial + After(c', schedule, i).t.signalled
      {
        RunKeeps(c', schedule, i, initial);
        Covered(After(c', schedule, i), initial);
      }
    } else {
      var schedule := ForgedGrant(c, initial);
      assert After(c', schedule, |schedule|).t.granted > initial + After(c', schedule, |schedule|).t.signalled;
    }
  }

  lemma Covered(c: Config, initial: int)
    requires Inv(c, initial)
    ensures c.t.granted <= initial + c.t.signalled
  {
  }

  /** If the waiter still waits on the kernel, the post wakes it; if it has timed
      out, the post is left behind and wakes its next wait. */
  lemma ForgedGrant(c: Config, initial: int) returns (schedule: seq<Action>)
    requires Inv(c, initial) && c.m.s == Add(0) && c.m.count < 0
    ensures SafeRun(Next(c, StepSignaller), schedule, |schedule|)
    ensures var c' := After(Next(c, StepSignaller), schedule, |schedule|);
      c'.t.granted > initial + c'.t.signalled
  {
    var c', tick := Next(c, StepSignaller), StepWaiter(false);
    var posted := c'.(m := c'.m.(kernel := 1, s := SIdle));
    if c.m.w.at.Undo? {
      schedule := [StepSignaller, tick, CallWait(Wait(false), 0), tick, tick, tick, tick];
      var busy := at => WBusy(Wait(false), 0, at);
      hide After, Inv, SafeRun;
      AfterStart(c', schedule);
      SafeAfterStep(c', schedule, 0, c');
      SafeAfterStep(c', schedule, 1, posted);
      SafeAfterStep(c', schedule, 2, Config(Sema(0, 1, WIdle(Refused), SIdle), c.t));
      SafeAfterStep(c', schedule, 3, Config(Sema(0, 1, busy(TryLoad), SIdle), c.t));
      SafeAfterStep(c', schedule, 4, Config(Sema(0, 1, busy(SpinLoad(0)), SIdle), c.t));
      SafeAfterStep(c', schedule, 5, Config(Sema(0, 1, busy(Decrement), SIdle), c.t));
      SafeAfterStep(c', schedule, 6, Config(Sema(-1, 1, busy(KernelWait), SIdle), c.t));
    } else {
      schedule := [StepSignaller, tick];
      hide After, Inv, SafeRun;
      AfterStart(c', schedule);
      SafeAfterStep(c', schedule, 0, c');
      SafeAfterStep(c', schedule, 1, posted);
    }
  }

  lemma SafeAfterStep(c: Config, schedule: seq<Action>, n: nat, before: Config)
    requires n < |schedule| && After(c, schedule, n) == before && SafeRun(c, schedule, n)
    requires SafeAddition(before, schedule[n])
    ensures After(c, schedule, n + 1) == Next(before, schedule[n]) && SafeRun(c, schedule, n + 1)
  {
  }

  lemma AfterStart(c: Config, schedule: seq<Action>)
    ensures After(c, schedule, 0) == c && SafeRun(c, schedule, 0)
  {
  }

  lemma AfterStep(c: Config, schedule: seq<Action>, n: nat, before: Config)
    requires n < |schedule| && After(c, schedule, n) == before
    ensures After(c, schedule, n + 1) == Next(before, schedule[n])
  {
  }

  /** With a waiter present, `signal(0)` wakes it although no permit was ever put
      in. */
  lemma ZeroSignalGrants() returns (schedule: seq<Action>)
    ensures var c := After(Initial(0), schedule, |schedule|);
      c.t.signalled == 0 && c.t.granted == 1 && c.m.w == WIdle(Granted) && c.m.count == -1
  {
    var tick, none := StepWaiter(false), Tally(0, 0);
    var wait := at => WBusy(Wait(false), 0, at);
    schedule := [CallWait(Wait(false), 0), tick, tick, tick, CallSignal(0), StepSignaller, StepSignaller, tick];
    var c := Initial(0);
    AfterStart(c, schedule);
    hide After;
    AfterStep(c, schedule, 0, c);
    AfterStep(c, schedule, 1, Config(Sema(0, 0, wait(TryLoad), SIdle), none));
    AfterStep(c, schedule, 2, Config(Sema(0, 0, wait(SpinLoad(0)), SIdle), none));
    AfterStep(c, schedule, 3, Config(Sema(0, 0, wait(Decrement), SIdle), none));
    AfterStep(c, schedule, 4, Config(Sema(-1, 0, wait(KernelWait), SIdle), none));
    AfterStep(c, schedule, 5, Config(Sema(-1, 0, wait(KernelWait), Add(0)), none));
    AfterStep(c, schedule, 6, Config(Sema(-1, 0, wait(KernelWait), Post), none));
    AfterStep(c, schedule, 7, Config(Sema(-1, 1, wait(KernelWait), SIdle), none));
  }
}
