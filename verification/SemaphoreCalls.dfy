/** Whole calls of the semaphore, from the call to its answer, and when a wait ends. */
module SemaphoreCalls {
  import opened Semaphores

  // ---- Waits ----

  /** Between steps `n` and `m` of the run the waiter makes one call and gets its
      answer. */
  predicate WaitCall(c: Config, schedule: seq<Action>, n: nat, m: nat, op: WaitOp) {
    && n < m <= |schedule| && schedule[n].CallWait? && schedule[n].op == op
    && After(c, schedule, n).m.w.WIdle? && After(c, schedule, m).m.w.WIdle?
    && forall i :: n < i < m ==> After(c, schedule, i).m.w.WBusy?
  }

  predicate Waiting(b: Config, c: Config, op: WaitOp) {
    c.m.w.WBusy? && c.m.w.op == op && c.t.granted == b.t.granted
  }

  /** The call has answered in `c`: it returned true exactly if it took one permit, and
      an untimed wait returned true. */
  predicate WaitAnswered(b: Config, c: Config, op: WaitOp) {
    && c.m.w.WIdle? && c.m.w.answer != NotCalled
    && c.t.granted == b.t.granted + (if c.m.w.answer == Granted then 1 else 0)
    && (op == Wait(false) ==> c.m.w.answer == Granted)
  }

  lemma WaitStarts(c: Config, op: WaitOp, spins: nat)
    requires c.m.w.WIdle?
    ensures var c' := Next(c, CallWait(op, spins));
      Waiting(c, c', op) && c'.m.w.at.TryLoad?
  {
  }

  lemma WaitStepAnswers(b: Config, c: Config, op: WaitOp, a: Action, initial: int)
    requires Inv(c, initial) && Waiting(b, c, op)
    ensures Waiting(b, Next(c, a), op) || WaitAnswered(b, Next(c, a), op)
  {
    hide Owed;
  }

  lemma {:induction false} WaitRuns(c: Config, schedule: seq<Action>, n: nat, m: nat, i: nat, op: WaitOp, initial: int)
    requires Inv(c, initial) && WaitCall(c, schedule, n, m, op) && n < i <= m && SafeRun(c, schedule, m)
    ensures var b, c' := After(c, schedule, n), After(c, schedule, i);
      Waiting(b, c', op) || (i == m && WaitAnswered(b, c', op))
    decreases i
  {
    hide Inv, Next, SafeRun;
    var b := After(c, schedule, n);
    if i == n + 1 {
      WaitStarts(b, op, schedule[n].spins);
    } else {
      WaitRuns(c, schedule, n, m, i - 1, op, initial);
      SafeBefore(c, schedule, i - 1, m);
      RunKeeps(c, schedule, i - 1, initial);
      assert After(c, schedule, i - 1).m.w.WBusy?;
      WaitStepAnswers(b, After(c, schedule, i - 1), op, schedule[i - 1], initial);
    }
  }

  lemma {:induction false} SafeBefore(c: Config, schedule: seq<Action>, i: nat, m: nat)
    requires i <= m <= |schedule| && SafeRun(c, schedule, m)
    ensures SafeRun(c, schedule, i)
    decreases m
  {
    hide SafeAddition, After;
    if i < m { SafeBefore(c, schedule, i, m - 1); }
  }

  /** The timed wait on the kernel has given up. */
  predicate GivenUp(w: Waiter) { w.WBusy? && (w.at.Undo? || w.at.Redo? || w.at.KernelTry?) }

  predicate TimesOut(c: Config, a: Action) {
    a == StepWaiter(true) && c.m.w.WBusy? && c.m.w.at.KernelTimedWait?
  }

  lemma IntoGivenUp(c: Config, a: Action)
    requires GivenUp(Next(c, a).m.w)
    ensures GivenUp(c.m.w) || TimesOut(c, a)
  {
  }

  lemma {:induction false} WhenTimedOut(c: Config, schedule: seq<Action>, n: nat, m: nat) returns (i: nat)
    requires n <= m <= |schedule| && GivenUp(After(c, schedule, m).m.w) && !GivenUp(After(c, schedule, n).m.w)
    ensures n <= i < m && TimesOut(After(c, schedule, i), schedule[i])
    decreases m
  {
    hide Next, GivenUp, TimesOut;
    IntoGivenUp(After(c, schedule, m - 1), schedule[m - 1]);
    if GivenUp(After(c, schedule, m - 1).m.w) {
      i := WhenTimedOut(c, schedule, n, m - 1);
    } else {
      i := m - 1;
    }
  }

  /** A timed wait that returns false has given up before. */
  lemma RefusalFrom(c: Config, a: Action)
    requires c.m.w.WBusy? && c.m.w.op == Wait(true) && Next(c, a).m.w == WIdle(Refused)
    ensures GivenUp(c.m.w) && a.StepWaiter?
  {
  }

  lemma RefusalIsStep(c: Config, a: Action)
    requires c.m.w.WBusy? && Next(c, a).m.w.WIdle?
    ensures a.StepWaiter?
  {
  }

  /** Every wait in every run: it returns true exactly if it took one permit, and false
      without taking any, only if it may, and at a moment when every permit put in had
      been granted. A timed wait returns false only after its kernel wait timed out. */
  lemma WaitAnswers(c: Config, initial: nat, schedule: seq<Action>, n: nat, m: nat, op: WaitOp)
    requires Reachable(c, initial) && WaitCall(c, schedule, n, m, op) && SafeRun(c, schedule, m)
    ensures WaitAnswered(After(c, schedule, n), After(c, schedule, m), op)
    ensures After(c, schedule, m).m.w == WIdle(Refused) ==>
      After(c, schedule, m - 1).t.granted == initial + After(c, schedule, m - 1).t.signalled
    ensures After(c, schedule, m).m.w == WIdle(Refused) && op == Wait(true) ==>
      exists i :: n < i < m && TimesOut(After(c, schedule, i), schedule[i])
  {
    hide Inv, Next, Reachable, SafeRun, TimesOut;
    ReachableInv(c, initial);
    WaitRuns(c, schedule, n, m, m, op, initial);
    WaitStarts(After(c, schedule, n), op, schedule[n].spins);
    assert After(c, schedule, n + 1) == Next(After(c, schedule, n), schedule[n]);
    assert n + 1 < m;
    if After(c, schedule, m).m.w == WIdle(Refused) {
      var before := After(c, schedule, m - 1);
      WaitRuns(c, schedule, n, m, m - 1, op, initial);
      SafeBefore(c, schedule, m - 1, m);
      RunKeeps(c, schedule, m - 1, initial);
      RefusalIsStep(before, schedule[m - 1]);
      RefusedWhenNoneLeft(before, initial, schedule[m - 1].timeout);
      if op == Wait(true) {
        RefusalFrom(before, schedule[m - 1]);
        var i := WhenTimedOut(c, schedule, n + 1, m - 1);
      }
    }
  }

  // ---- Signals ----

  predicate SignalCall(c: Config, schedule: seq<Action>, n: nat, m: nat, permits: nat) {
    && n < m <= |schedule| && schedule[n] == CallSignal(permits)
    && After(c, schedule, n).m.s.SIdle? && After(c, schedule, m).m.s.SIdle?
    && forall i :: n < i < m ==> !After(c, schedule, i).m.s.SIdle?
  }

  predicate Signalling(b: Config, c: Config, permits: nat) {
    || (c.m.s == Add(permits) && c.t.signalled == b.t.signalled)
    || (c.m.s.Post? && c.t.signalled == b.t.signalled + permits)
  }

  predicate Signalled(b: Config, c: Config, permits: nat) {
    c.m.s.SIdle? && c.t.signalled == b.t.signalled + permits
  }

  lemma SignalStepAnswers(b: Config, c: Config, permits: nat, a: Action, initial: int)
    requires Inv(c, initial) && Signalling(b, c, permits)
    ensures Signalling(b, Next(c, a), permits) || Signalled(b, Next(c, a), permits)
  {
  }

  lemma SignalStarts(c: Config, permits: nat)
    requires c.m.s.SIdle?
    ensures Signalling(c, Next(c, CallSignal(permits)), permits)
  {
  }

  lemma {:induction false} SignalRuns(c: Config, schedule: seq<Action>, n: nat, m: nat, i: nat,
                                      permits: nat, initial: int)
    requires Inv(c, initial) && SignalCall(c, schedule, n, m, permits) && n < i <= m && SafeRun(c, schedule, m)
    ensures var b, c' := After(c, schedule, n), After(c, schedule, i);
      Signalling(b, c', permits) || (i == m && Signalled(b, c', permits))
    decreases i
  {
    hide Inv, Next, SafeRun;
    var b := After(c, schedule, n);
    if i == n + 1 {
      SignalStarts(b, permits);
    } else {
      SignalRuns(c, schedule, n, m, i - 1, permits, initial);
      SafeBefore(c, schedule, i - 1, m);
      RunKeeps(c, schedule, i - 1, initial);
      assert !After(c, schedule, i - 1).m.s.SIdle?;
      SignalStepAnswers(b, After(c, schedule, i - 1), permits, schedule[i - 1], initial);
    }
  }

  /** Every `signal(permits)` in every run has put in exactly `permits` permits by the
      time it returns. */
  lemma SignalAnswers(c: Config, initial: nat, schedule: seq<Action>, n: nat, m: nat, permits: nat)
    requires Reachable(c, initial) && SignalCall(c, schedule, n, m, permits) && SafeRun(c, schedule, m)
    ensures After(c, schedule, m).t.signalled == After(c, schedule, n).t.signalled + permits
  {
    hide Inv, Next, Reachable, SafeRun, After;
    ReachableInv(c, initial);
    SignalRuns(c, schedule, n, m, m, permits, initial);
  }

  // ---- When a wait ends ----

  /** The longest way from where the waiter is to its answer, if the kernel never makes
      it wait. */
  function WaitRank(w: Waiter): nat {
    if !w.WBusy? then 0
    else match w.at
      case TryLoad => if w.op == TryWait then 2 else 7 + w.spins
      case TryTake => 1
      case SpinLoad(left) => 6 + left
      case SpinTake => 1
      case Decrement => 5
      case KernelWait => 1
      case KernelTimedWait => 4
      case Undo => 3
      case Redo => 2
      case KernelTry => 1
  }

  /** The kernel does not make the waiter wait at this step: an untimed wait finds a post,
      a timed one finds a post or times out; and a pass of the retry loop does not come
      between the signaller's addition and its post. */
  predicate KernelLets(m: Sema, a: Action) {
    a.StepWaiter? && m.w.WBusy? ==>
      match m.w.at
      case KernelWait => m.kernel > 0
      case KernelTimedWait => a.timeout || m.kernel > 0
      case KernelTry => !m.s.Post?
      case _ => true
  }

  lemma WaitAdvances(c: Config, a: Action, initial: int)
    requires Inv(c, initial) && c.m.w.WBusy? && KernelLets(c.m, a) && Next(c, a).m.w.WBusy?
    ensures WaitRank(Next(c, a).m.w) + (if a.StepWaiter? then 1 else 0) <= WaitRank(c.m.w)
  {
  }

  lemma {:induction false} WaitSpent(c: Config, schedule: seq<Action>, n: nat, initial: int)
    requires Inv(c, initial) && n <= |schedule| && SafeRun(c, schedule, n)
    requires forall i :: 0 <= i < n ==> KernelLets(After(c, schedule, i).m, schedule[i])
    requires forall i :: 0 <= i <= n ==> After(c, schedule, i).m.w.WBusy?
    ensures WaiterSteps(schedule, n) + WaitRank(After(c, schedule, n).m.w) <= WaitRank(c.m.w)
  {
    hide Inv, Next, WaitRank, KernelLets, SafeRun;
    if n > 0 {
      SafeBefore(c, schedule, n - 1, n);
      WaitSpent(c, schedule, n - 1, initial);
      RunKeeps(c, schedule, n - 1, initial);
      assert KernelLets(After(c, schedule, n - 1).m, schedule[n - 1]);
      assert After(c, schedule, n - 1).m.w.WBusy? && After(c, schedule, n).m.w.WBusy?;
      WaitAdvances(After(c, schedule, n - 1), schedule[n - 1], initial);
    }
  }

  lemma RankPositive(w: Waiter)
    ensures w.WBusy? ==> WaitRank(w) >= 1
  {
  }

  /** Every wait ends: it has answered by the time the waiter has taken as many steps as
      its spins allow and a few more, unless the kernel made it wait or a pass of the
      retry loop came between a signaller's addition and its post. In particular a
      timed wait whose kernel wait times out answers. */
  lemma WaitEnds(c: Config, initial: nat, schedule: seq<Action>, n: nat)
    requires Reachable(c, initial) && c.m.w.WBusy? && n <= |schedule| && SafeRun(c, schedule, n)
    requires forall i :: 0 <= i < n ==> KernelLets(After(c, schedule, i).m, schedule[i])
    requires WaiterSteps(schedule, n) >= WaitRank(c.m.w)
    ensures exists i :: 0 <= i <= n && After(c, schedule, i).m.w.WIdle?
  {
    hide Inv, Next, Reachable, WaitRank, KernelLets, SafeRun;
    ReachableInv(c, initial);
    if forall i :: 0 <= i <= n ==> After(c, schedule, i).m.w.WBusy? {
      WaitSpent(c, schedule, n, initial);
      RankPositive(After(c, schedule, n).m.w);
      assert false;
    }
  }

  /** The kernel's timed wait gives up at this step, if it comes to that; and a pass of the
      retry loop does not come between the signaller's addition and its post. */
  predicate TimeIsUp(m: Sema, a: Action) {
    a.StepWaiter? ==> a.timeout && !(m.w.WBusy? && m.w.at.KernelTry? && m.s.Post?)
  }

  lemma TimedStep(c: Config, initial: int, a: Action)
    requires Inv(c, initial) && c.m.w.WBusy? && c.m.w.op == Wait(true) && TimeIsUp(c.m, a)
    ensures KernelLets(c.m, a)
    ensures Next(c, a).m.w.WBusy? ==> Next(c, a).m.w.op == Wait(true)
  {
    hide Owed;
  }

  lemma {:induction false} TimedRun(c: Config, schedule: seq<Action>, n: nat, initial: int)
    requires Inv(c, initial) && c.m.w.WBusy? && c.m.w.op == Wait(true) && n <= |schedule| && SafeRun(c, schedule, n)
    requires forall i :: 0 <= i < n ==> TimeIsUp(After(c, schedule, i).m, schedule[i])
    requires forall i :: 0 <= i <= n ==> After(c, schedule, i).m.w.WBusy?
    ensures After(c, schedule, n).m.w.WBusy? && After(c, schedule, n).m.w.op == Wait(true)
    ensures forall i :: 0 <= i < n ==> KernelLets(After(c, schedule, i).m, schedule[i])
  {
    hide Inv, Next, TimeIsUp, KernelLets, SafeRun;
    assert After(c, schedule, n).m.w.WBusy?;
    if n > 0 {
      SafeBefore(c, schedule, n - 1, n);
      TimedRun(c, schedule, n - 1, initial);
      RunKeeps(c, schedule, n - 1, initial);
      assert TimeIsUp(After(c, schedule, n - 1).m, schedule[n - 1]);
      TimedStep(After(c, schedule, n - 1), initial, schedule[n - 1]);
    }
  }

  /** A timed wait always ends when its time is up, whether a permit comes or not: with
      the kernel giving up it has answered within its steps, unless a pass of the retry
      loop comes between a signaller's addition and its post. */
  lemma TimedWaitEnds(c: Config, initial: nat, schedule: seq<Action>, n: nat)
    requires Reachable(c, initial) && c.m.w.WBusy? && c.m.w.op == Wait(true)
    requires n <= |schedule| && SafeRun(c, schedule, n)
    requires forall i :: 0 <= i < n ==> TimeIsUp(After(c, schedule, i).m, schedule[i])
    requires WaiterSteps(schedule, n) >= WaitRank(c.m.w)
    ensures exists i :: 0 <= i <= n && After(c, schedule, i).m.w.WIdle?
  {
    hide Inv, Next, Reachable, WaitRank, KernelLets, SafeRun, TimeIsUp;
    ReachableInv(c, initial);
    if forall i :: 0 <= i <= n ==> After(c, schedule, i).m.w.WBusy? {
      TimedRun(c, schedule, n, initial);
      WaitEnds(c, initial, schedule, n);
      assert false;
    }
  }

  /** A `tryWait` is never at the kernel and has two steps at most. */
  lemma TryWaitNeverBlocks(c: Config, initial: int, a: Action)
    requires Inv(c, initial) && c.m.w.WBusy? && c.m.w.op == TryWait
    ensures KernelLets(c.m, a) && WaitRank(c.m.w) <= 2
  {
  }

  /** If a permit is there and the signaller is not just before its post, a waiter
      blocked on the kernel gets it at its next step. */
  lemma PermitWakes(c: Config, initial: nat)
    requires Reachable(c, initial) && c.m.w.WBusy? && (c.m.w.at.KernelWait? || c.m.w.at.KernelTimedWait?)
    requires c.t.granted < initial + c.t.signalled && !c.m.s.Post?
    ensures Next(c, StepWaiter(false)).m.w == WIdle(Granted)
  {
    hide Reachable;
    ReachableInv(c, initial);
  }
}
