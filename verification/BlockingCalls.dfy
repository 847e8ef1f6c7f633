/** Whole calls of the blocking queue, from the call to its answer, and when they end. */
module BlockingCalls {
  import opened Elements
  import opened Words
  import opened Blocking
  import Q = Spsc
  import I = SpscInvariant
  import T = SpscTheorems
  import K = SpscCapacity
  import QC = SpscCalls
  import G = SpscProgress
  import S = Semaphores
  import W = SemaphoreCalls

  // ---- What the two threads leave alone ----

  lemma WaiterLeaves(m: S.Config, a: S.Action)
    requires a.CallWait? || a.StepWaiter?
    ensures S.Next(m, a).m.s == m.m.s && S.Next(m, a).t.signalled == m.t.signalled
  {
  }

  lemma Glued(b: State, k: I.Setup)
    requires Inv(b, k)
    ensures I.Inv(b.q, k) && S.Inv(b.m, 0) && ProducerGlue(b) && ConsumerGlue(b)
  {
    hide I.Inv, S.Inv, ProducerGlue, ConsumerGlue;
  }

  lemma SignallerLeaves(m: S.Config, a: S.Action)
    requires a.CallSignal? || a.StepSignaller?
    ensures S.Next(m, a).m.w == m.m.w && S.Next(m, a).t.granted == m.t.granted
  {
  }

  // ---- Enqueue ----

  /** From state `b0`, the producer runs a call of `enqueue(v)` or `try_enqueue(v)` and
      has reached `b`. */
  predicate Adding(b0: State, b: State, v: Elem, mode: Q.Mode) {
    if b.p.Enqueuing? then
      QC.Enqueuing(b0.q, b.q, v, mode) && b.m.t.signalled == b0.m.t.signalled
    else
      && b.p.Signalling? && QC.EnqueueAnswered(b0.q, b.q, v, mode) && b.q.s.p == Q.PIdle(Q.Accepted)
      && b.m.t.signalled == b0.m.t.signalled + (if b.m.m.s.Post? then 1 else 0)
  }

  /** The call has answered in `b`: true exactly if the inner queue took `v`, and then
      one permit was added; otherwise nothing was. */
  predicate Added(b0: State, b: State, v: Elem, mode: Q.Mode) {
    && b.p.PIdle? && QC.EnqueueAnswered(b0.q, b.q, v, mode)
    && (b.p.answer <==> b.q.s.p == Q.PIdle(Q.Accepted))
    && b.m.t.signalled == b0.m.t.signalled + (if b.p.answer then 1 else 0)
  }

  lemma AddStarts(b: State, k: I.Setup, v: Elem, mode: Q.Mode)
    requires Inv(b, k) && b.p.PIdle?
    ensures Adding(b, Next(b, CallEnqueue(v, mode)), v, mode)
  {
    hide I.Inv, S.Inv;
    QC.EnqueueStarts(b.q, v, mode);
  }

  lemma AddStepsOn(b0: State, b: State, k: I.Setup, v: Elem, mode: Q.Mode, ok: bool, bytes: Elem)
    requires Inv(b, k) && Adding(b0, b, v, mode)
    ensures var b' := ProducerStep(b, ok, bytes); Adding(b0, b', v, mode) || Added(b0, b', v, mode)
  {
    hide Inv, I.Inv, S.Inv, Q.Next, QC.Enqueuing, QC.EnqueueAnswered, ConsumerGlue;
    ProducerStepKeeps(b, k, ok, bytes);
    Glued(b, k);
    Glued(ProducerStep(b, ok, bytes), k);
    if b.p.Enqueuing? {
      QC.EnqueueStep(b0.q, b.q, k, v, mode, Q.StepProducer(ok, bytes));
      QC.AnsweredIsIdle(b0.q, Q.Next(b.q, Q.StepProducer(ok, bytes)), v, mode);
    }
  }

  /** An inner queue whose producer has answered keeps its answer while the consumer
      steps. */
  lemma AnswerKept(b0: Q.Config, q: Q.Config, a: Q.Action, v: Elem, mode: Q.Mode)
    requires QC.EnqueueAnswered(b0, q, v, mode) && (a == Q.StepConsumer || a.CallConsumer?)
    ensures QC.EnqueueAnswered(b0, Q.Next(q, a), v, mode) && Q.Next(q, a).s.p == q.s.p
  {
    hide Q.Next;
    QC.OthersKeep(q, a);
  }

  /** A step of the consumer is at most one step of the inner queue's consumer and at
      most one of the semaphore's waiter. */
  lemma ConsumerParts(b: State, a: Action) returns (qa: Q.Action, sa: S.Action)
    requires a.CallDequeue? || a.StepConsumer?
    ensures Next(b, a).p == b.p
    ensures qa == Q.StepConsumer || qa.CallConsumer?
    ensures Next(b, a).q == b.q || Next(b, a).q == Q.Next(b.q, qa)
    ensures sa.CallWait? || sa.StepWaiter?
    ensures Next(b, a).m == b.m || Next(b, a).m == S.Next(b.m, sa)
  {
    hide Q.Next, S.Next;
    match a
    case CallDequeue(op, spins) => qa, sa := Q.CallConsumer(Q.Peek), S.CallWait(WaitFor(op), spins);
    case StepConsumer(timeout) =>
      qa, sa := if b.c.Waiting? then Q.CallConsumer(InnerOp(b.c.op)) else Q.StepConsumer, S.StepWaiter(timeout);
  }

  lemma AddUndisturbed(b0: State, b: State, k: I.Setup, v: Elem, mode: Q.Mode, a: Action)
    requires Inv(b, k) && Adding(b0, b, v, mode) && (a.CallDequeue? || a.StepConsumer?)
    ensures Adding(b0, Next(b, a), v, mode)
  {
    hide I.Inv, S.Inv, Q.Next, S.Next, Next, QC.Enqueuing, QC.EnqueueAnswered;
    var qa, sa := ConsumerParts(b, a);
    WaiterLeaves(b.m, sa);
    if b.p.Enqueuing? {
      QC.EnqueueStep(b0.q, b.q, k, v, mode, qa);
      StillBusy(b0.q, b.q, qa, v, mode);
    } else {
      AnswerKept(b0.q, b.q, qa, v, mode);
    }
  }

  lemma StillBusy(b0: Q.Config, q: Q.Config, a: Q.Action, v: Elem, mode: Q.Mode)
    requires QC.Enqueuing(b0, q, v, mode) && (a == Q.StepConsumer || a.CallConsumer?)
    ensures !QC.EnqueueAnswered(b0, Q.Next(q, a), v, mode)
  {
    hide Q.Next;
    QC.OthersKeep(q, a);
  }

  lemma AddStep(b0: State, b: State, k: I.Setup, v: Elem, mode: Q.Mode, a: Action)
    requires Inv(b, k) && Adding(b0, b, v, mode)
    ensures Adding(b0, Next(b, a), v, mode) || Added(b0, Next(b, a), v, mode)
  {
    hide Inv, Added, ConsumerStep, ProducerStep, QC.Enqueuing, QC.EnqueueAnswered;
    match a
    case CallEnqueue(_, _) => assert Next(b, a) == b;
    case StepProducer(ok, bytes) => AddStepsOn(b0, b, k, v, mode, ok, bytes);
    case CallDequeue(_, _) => AddUndisturbed(b0, b, k, v, mode, a);
    case StepConsumer(_) => AddUndisturbed(b0, b, k, v, mode, a);
  }

  predicate EnqueueCall(b: State, schedule: seq<Action>, n: nat, m: nat, v: Elem, mode: Q.Mode) {
    && n < m <= |schedule| && schedule[n] == CallEnqueue(v, mode)
    && After(b, schedule, n).p.PIdle? && After(b, schedule, m).p.PIdle?
    && forall i :: n < i < m ==> !After(b, schedule, i).p.PIdle?
  }

  lemma AddedIsIdle(b0: State, b: State, v: Elem, mode: Q.Mode)
    ensures Added(b0, b, v, mode) ==> b.p.PIdle?
    ensures Adding(b0, b, v, mode) ==> !b.p.PIdle?
  {
  }

  lemma {:induction false} AddRuns(b: State, k: I.Setup, schedule: seq<Action>, n: nat, m: nat, i: nat,
                                   v: Elem, mode: Q.Mode)
    requires Inv(b, k) && EnqueueCall(b, schedule, n, m, v, mode) && n < i <= m
    ensures var b0, b' := After(b, schedule, n), After(b, schedule, i);
      Adding(b0, b', v, mode) || (i == m && Added(b0, b', v, mode))
    decreases i
  {
    hide Inv, Next, Adding, Added;
    var b0 := After(b, schedule, n);
    if i == n + 1 {
      RunKeeps(b, k, schedule, n);
      AddStarts(b0, k, v, mode);
    } else {
      AddRuns(b, k, schedule, n, m, i - 1, v, mode);
      RunKeeps(b, k, schedule, i - 1);
      AddStep(b0, After(b, schedule, i - 1), k, v, mode, schedule[i - 1]);
      if i < m {
        assert !After(b, schedule, i).p.PIdle?;
        AddedIsIdle(b0, After(b, schedule, i), v, mode);
      }
    }
  }

  /** The queue inside the blocking queue is in a reachable configuration of its own, so
      all results about the concurrent queue hold of it. */
  lemma InnerReachable(b: State, maxSize: nat, maxBlock: nat)
    requires Reachable(b, maxSize, maxBlock)
    ensures T.Reachable(b.q, maxSize, maxBlock)
  {
    hide After, T.Reachable, IsPow2, Q.InitialConfig;
    var bytes: Elem, schedule: seq<Action> :|
      b == After(Initial(maxSize, maxBlock, bytes), schedule, |schedule|);
    G.StartReachable(maxSize, maxBlock, bytes);
    InnerRun(Initial(maxSize, maxBlock, bytes), schedule, |schedule|, maxSize, maxBlock);
  }

  lemma {:induction false} InnerRun(b: State, schedule: seq<Action>, n: nat, maxSize: nat, maxBlock: nat)
    requires T.Reachable(b.q, maxSize, maxBlock) && n <= |schedule|
    ensures T.Reachable(After(b, schedule, n).q, maxSize, maxBlock)
  {
    hide Next, T.Reachable, Q.Next;
    if n > 0 {
      InnerRun(b, schedule, n - 1, maxSize, maxBlock);
      var before := After(b, schedule, n - 1);
      var inner := InnerStep(before, schedule[n - 1]);
      G.ReachableNext(before.q, inner, maxSize, maxBlock);
    }
  }

  /** Every call of `enqueue(v)` and `try_enqueue(v)` of the blocking queue, in every
      run: it answers true if and only if exactly `v` was appended in between, and then
      exactly one permit was added; otherwise nothing was appended and no permit added.
      A `try_enqueue` makes no block. If the call fails, the inner queue held `maxSize`
      elements and had no free block, and an `enqueue` got no memory. */
  lemma EnqueueAnswers(b: State, maxSize: nat, maxBlock: nat, schedule: seq<Action>, n: nat, m: nat,
                       v: Elem, mode: Q.Mode)
    requires Reachable(b, maxSize, maxBlock) && EnqueueCall(b, schedule, n, m, v, mode)
    ensures var b0, b' := After(b, schedule, n), After(b, schedule, m);
      && b'.q.h.enqueued == b0.q.h.enqueued + (if b'.p.answer then [v] else [])
      && b'.m.t.signalled == b0.m.t.signalled + (if b'.p.answer then 1 else 0)
      && (mode == Q.CannotAlloc ==> |b'.q.s.m.blocks| == |b0.q.s.m.blocks|)
      && (!b'.p.answer ==>
          && b'.q.s.p == Q.PIdle(if mode == Q.CanAlloc then Q.OutOfMemory else Q.Refused)
          && K.NoRoomRun(b'.q, maxSize, maxBlock))
  {
    hide Inv, Next, Reachable, T.Reachable, K.NoRoomRun, Adding, After;
    var k := ReachableInv(b, maxSize, maxBlock);
    AddRuns(b, k, schedule, n, m, m, v, mode);
    AddedIsIdle(After(b, schedule, n), After(b, schedule, m), v, mode);
    if !After(b, schedule, m).p.answer {
      InnerReachable(b, maxSize, maxBlock);
      InnerRun(b, schedule, m, maxSize, maxBlock);
      K.NoRoomReachable(After(b, schedule, m).q, maxSize, maxBlock);
    }
  }

  // ---- Dequeue, pop and peek ----

  /** From state `b0`, the consumer runs a call of `op` and has reached `b`. */
  predicate Removing(b0: State, b: State, op: Op) {
    && b.q.h.removed == b0.q.h.removed
    && match b.c
       case Waiting(o) => o == op && op != Peek && b.m.t.granted == b0.m.t.granted
       case Removing(o) =>
         && o == op && op != Peek && b.m.t.granted == b0.m.t.granted + 1
         && b.q.s.c.CBusy? && b.q.s.c.op == (if op == Pop then Q.Pop else Q.TryDequeue)
       case Peeking =>
         op == Peek && b.m.t.granted == b0.m.t.granted && b.q.s.c.CBusy? && b.q.s.c.op == Q.Peek
       case _ => false
  }

  /** The call has answered in `b`. The three dequeues answer with an element exactly if
      they removed just that one, `pop` answers true exactly if it removed one, and each
      then used one permit; an untimed `wait_dequeue` never answers `false`. */
  predicate Removed(b0: State, b: State, op: Op) {
    && b.c.CIdle?
    && b.m.t.granted == b0.m.t.granted + (if b.c.answer.Taken? || b.c.answer.Dropped? then 1 else 0)
    && match b.c.answer
       case Empty =>
         && op != WaitDequeue && op != WaitDequeueTimed(false) && b.q.h.removed == b0.q.h.removed
         && (op == Peek ==> b.q.s.c == Q.CIdle(Q.Empty))
       case Taken(v) => op != Pop && op != Peek && b.q.h.removed == b0.q.h.removed + [v]
       case Dropped =>
         op == Pop && |b.q.h.removed| == |b0.q.h.removed| + 1 && b0.q.h.removed <= b.q.h.removed
       case Seen(block, i) =>
         op == Peek && b.q.h.removed == b0.q.h.removed && b.q.h.peeked == Some((block, i))
       case NoAnswer => false
  }

  lemma RemoveStarts(b: State, k: I.Setup, op: Op, spins: nat)
    requires Inv(b, k) && b.c.CIdle?
    ensures Removing(b, Next(b, CallDequeue(op, spins)), op)
    ensures op != Peek ==>
      var w := Next(b, CallDequeue(op, spins)).m.m.w;
      w.WBusy? && w.at.TryLoad?
  {
    hide I.Inv, S.Inv, Q.Observe, Q.StepDequeue, Q.StepEnqueue;
    QC.DequeueStarts(b.q, Q.Peek);
  }

  lemma WaitStepsOn(b0: State, b: State, k: I.Setup, op: Op, timeout: bool)
    requires Inv(b, k) && Removing(b0, b, op) && b.c.Waiting?
    ensures var b' := ConsumerStep(b, timeout); Removing(b0, b', op) || Removed(b0, b', op)
  {
    hide I.Inv, S.Inv, Q.StepDequeue, Q.StepEnqueue, Q.Observe;
    var answered := S.Next(b.m, S.StepWaiter(timeout)).m.w;
    QC.DequeueStarts(b.q, InnerOp(op));
    if answered.WIdle? {
      WaitAnswers(b.m, timeout);
      if answered == S.WIdle(S.Refused) { S.RefusedWhenNoneLeft(b.m, 0, timeout); }
    }
  }

  lemma InnerStepsOn(b0: State, b: State, k: I.Setup, op: Op)
    requires Inv(b, k) && Removing(b0, b, op) && (b.c.Removing? || b.c.Peeking?)
    requires Inv(ConsumerStep(b, false), k)
    ensures var b' := ConsumerStep(b, false); Removing(b0, b', op) || Removed(b0, b', op)
  {
    hide I.Inv, S.Inv, Q.Next, ProducerGlue;
    QC.DequeueStep(b0.q, b.q, k, b.q.s.c.op, Q.StepConsumer);
  }

  lemma StepIgnoresTimeout(b: State, timeout: bool)
    requires !b.c.Waiting?
    ensures ConsumerStep(b, timeout) == ConsumerStep(b, false)
  {
  }

  /** A step of the producer is at most one step of the inner queue's producer and at
      most one of the semaphore's signaller. */
  lemma ProducerParts(b: State, a: Action) returns (qa: Q.Action, sa: S.Action)
    requires a.CallEnqueue? || a.StepProducer?
    ensures Next(b, a).c == b.c
    ensures qa.StepProducer? || qa.CallEnqueue?
    ensures Next(b, a).q == b.q || Next(b, a).q == Q.Next(b.q, qa)
    ensures sa == S.StepSignaller || sa.CallSignal?
    ensures Next(b, a).m == b.m || Next(b, a).m == S.Next(b.m, sa)
  {
    hide Q.Next, S.Next;
    match a
    case CallEnqueue(v, mode) => qa, sa := Q.CallEnqueue(v, mode), S.StepSignaller;
    case StepProducer(ok, bytes) =>
      qa, sa := Q.StepProducer(ok, bytes), if b.p.Enqueuing? then S.CallSignal(1) else S.StepSignaller;
  }

  lemma RemoveUndisturbed(b0: State, b: State, op: Op, a: Action)
    requires Removing(b0, b, op) && (a.CallEnqueue? || a.StepProducer?)
    ensures Removing(b0, Next(b, a), op)
  {
    hide Q.Next, S.Next, Next;
    var qa, sa := ProducerParts(b, a);
    SignallerLeaves(b.m, sa);
    QC.OthersKeepConsumer(b.q, qa);
  }

  lemma RemoveStep(b0: State, b: State, k: I.Setup, op: Op, a: Action)
    requires Inv(b, k) && Removing(b0, b, op)
    ensures Removing(b0, Next(b, a), op) || Removed(b0, Next(b, a), op)
  {
    hide Inv, Removed, ConsumerStep, ProducerStep;
    StepKeeps(b, k, a);
    match a
    case CallEnqueue(_, _) => RemoveUndisturbed(b0, b, op, a);
    case StepProducer(_, _) => RemoveUndisturbed(b0, b, op, a);
    case CallDequeue(_, _) => assert Next(b, a) == b;
    case StepConsumer(timeout) =>
      if b.c.Waiting? {
        WaitStepsOn(b0, b, k, op, timeout);
      } else {
        StepIgnoresTimeout(b, timeout);
        InnerStepsOn(b0, b, k, op);
      }
  }

  predicate DequeueCall(b: State, schedule: seq<Action>, n: nat, m: nat, op: Op) {
    && n < m <= |schedule| && schedule[n].CallDequeue? && schedule[n].op == op
    && After(b, schedule, n).c.CIdle? && After(b, schedule, m).c.CIdle?
    && forall i :: n < i < m ==> !After(b, schedule, i).c.CIdle?
  }

  lemma RemovedIsIdle(b0: State, b: State, op: Op)
    ensures Removed(b0, b, op) ==> b.c.CIdle?
    ensures Removing(b0, b, op) ==> !b.c.CIdle?
  {
  }

  lemma {:induction false} RemoveRuns(b: State, k: I.Setup, schedule: seq<Action>, n: nat, m: nat, i: nat, op: Op)
    requires Inv(b, k) && DequeueCall(b, schedule, n, m, op) && n < i <= m
    ensures var b0, b' := After(b, schedule, n), After(b, schedule, i);
      Removing(b0, b', op) || (i == m && Removed(b0, b', op))
    decreases i
  {
    hide Inv, Next, Removing, Removed;
    var b0 := After(b, schedule, n);
    if i == n + 1 {
      RunKeeps(b, k, schedule, n);
      RemoveStarts(b0, k, op, schedule[n].spins);
    } else {
      RemoveRuns(b, k, schedule, n, m, i - 1, op);
      RunKeeps(b, k, schedule, i - 1);
      RemoveStep(b0, After(b, schedule, i - 1), k, op, schedule[i - 1]);
      if i < m {
        assert !After(b, schedule, i).c.CIdle?;
        RemovedIsIdle(b0, After(b, schedule, i), op);
      }
    }
  }

  // ---- Answers of `false` ----

  /** The kernel wait of a timed dequeue has given up. */
  predicate GivenUp(b: State) { b.c.Waiting? && W.GivenUp(b.m.m.w) }

  predicate TimesOut(b: State, a: Action) {
    a == StepConsumer(true) && b.c.Waiting? && b.m.m.w.WBusy? && b.m.m.w.at.KernelTimedWait?
  }

  lemma IntoGivenUp(b: State, k: I.Setup, a: Action)
    requires Inv(b, k) && GivenUp(Next(b, a))
    ensures GivenUp(b) || TimesOut(b, a)
  {
    hide Q.Next, I.Inv, S.Inv, ProducerGlue;
  }

  lemma {:induction false} WhenTimedOut(b: State, k: I.Setup, schedule: seq<Action>, n: nat, m: nat) returns (i: nat)
    requires Inv(b, k) && n <= m <= |schedule| && GivenUp(After(b, schedule, m)) && !GivenUp(After(b, schedule, n))
    ensures n <= i < m && TimesOut(After(b, schedule, i), schedule[i])
    decreases m
  {
    hide Inv, Next, GivenUp, TimesOut;
    RunKeeps(b, k, schedule, m - 1);
    IntoGivenUp(After(b, schedule, m - 1), k, schedule[m - 1]);
    if GivenUp(After(b, schedule, m - 1)) {
      i := WhenTimedOut(b, k, schedule, n, m - 1);
    } else {
      i := m - 1;
    }
  }

  /** The step at which a dequeue answers `false`. */
  lemma RefusalStep(b0: State, b: State, k: I.Setup, op: Op, a: Action)
    requires Inv(b, k) && Removing(b0, b, op) && op != Peek && Next(b, a).c == CIdle(Q.Empty)
    ensures a.StepConsumer? && b.c.Waiting?
    ensures op == WaitDequeueTimed(true) ==> GivenUp(b)
  {
    hide Inv, I.Inv, S.Inv, Q.Next, ProducerGlue;
    StepKeeps(b, k, a);
    Glued(b, k);
    Glued(Next(b, a), k);
  }

  /** Every call of `try_dequeue`, `wait_dequeue`, `wait_dequeue_timed`, `pop` and `peek`
      of the blocking queue, in every run: its answer says exactly what it removed, as
      `Removed` spells out for each operation. A dequeue or `pop` that answers `false`
      did so at a moment when the queue held nothing but, perhaps, the one element whose
      permit was not added yet; and a timed one only after its kernel wait timed out. A
      `peek` that answers null found the queue empty at its load of `tail`. */
  lemma DequeueAnswers(b: State, maxSize: nat, maxBlock: nat, schedule: seq<Action>, n: nat, m: nat, op: Op)
    requires Reachable(b, maxSize, maxBlock) && DequeueCall(b, schedule, n, m, op)
    ensures Removed(After(b, schedule, n), After(b, schedule, m), op)
    ensures After(b, schedule, m).c == CIdle(Q.Empty) && op != Peek ==>
      var last := After(b, schedule, m - 1);
      I.HasQueue(last.q) && |I.AbstractQueue(last.q)| == if Unsignalled(last) then 1 else 0
    ensures After(b, schedule, m).c == CIdle(Q.Empty) && op == WaitDequeueTimed(true) ==>
      exists i :: n < i < m && TimesOut(After(b, schedule, i), schedule[i])
    ensures After(b, schedule, m).c == CIdle(Q.Empty) && op == Peek ==>
      T.EmptyRun(After(b, schedule, m).q, maxSize, maxBlock)
  {
    hide T.EmptyRun, T.Reachable;
    hide Inv, Next, Reachable, Removing, Removed, GivenUp, TimesOut, I.HasQueue, I.AbstractQueue, Unsignalled;
    var k := ReachableInv(b, maxSize, maxBlock);
    RemoveRuns(b, k, schedule, n, m, m, op);
    RemovedIsIdle(After(b, schedule, n), After(b, schedule, m), op);
    if After(b, schedule, m).c == CIdle(Q.Empty) && op == Peek {
      PeekedNothing(After(b, schedule, n), After(b, schedule, m));
      InnerReachable(b, maxSize, maxBlock);
      InnerRun(b, schedule, m, maxSize, maxBlock);
      T.EmptyReachable(After(b, schedule, m).q, maxSize, maxBlock);
    }
    if After(b, schedule, m).c == CIdle(Q.Empty) && op != Peek {
      RunKeeps(b, k, schedule, n);
      RemoveStarts(After(b, schedule, n), k, op, schedule[n].spins);
      RemovedIsIdle(After(b, schedule, n), After(b, schedule, n + 1), op);
      var last := After(b, schedule, m - 1);
      RemoveRuns(b, k, schedule, n, m, m - 1, op);
      RunKeeps(b, k, schedule, m - 1);
      RefusalStep(After(b, schedule, n), last, k, op, schedule[m - 1]);
      RefusalAt(last, k, schedule[m - 1].timeout);
      if op == WaitDequeueTimed(true) {
        NotGivenUp(After(b, schedule, n + 1));
        var i := WhenTimedOut(b, k, schedule, n + 1, m - 1);
      }
    }
  }

  /** An untimed `wait_dequeue` that has answered has delivered the element it removed. */
  lemma WaitDequeueDelivers(b: State, maxSize: nat, maxBlock: nat, schedule: seq<Action>, n: nat, m: nat, op: Op)
    requires Reachable(b, maxSize, maxBlock) && DequeueCall(b, schedule, n, m, op)
    requires op == WaitDequeue || op == WaitDequeueTimed(false)
    ensures var c := After(b, schedule, m).c;
      && c.answer.Taken?
      && After(b, schedule, m).q.h.removed == After(b, schedule, n).q.h.removed + [c.answer.v]
  {
    hide Reachable, After;
    DequeueAnswers(b, maxSize, maxBlock, schedule, n, m, op);
  }

  lemma PeekedNothing(b0: State, b: State)
    requires Removed(b0, b, Peek) && b.c == CIdle(Q.Empty)
    ensures T.AnsweredEmpty(b.q)
  {
  }

  lemma NotGivenUp(b: State)
    requires b.m.m.w.WBusy? && b.m.m.w.at.TryLoad?
    ensures !GivenUp(b)
  {
  }

  // ---- When calls end ----

  function ProducerRank(b: State): nat {
    match b.p
    case PIdle(_) => 0
    case Enqueuing => G.ProducerRank(b.q.s.p) + 2
    case Signalling => if b.m.m.s.Post? then 1 else 2
  }

  function ConsumerRank(b: State): nat {
    match b.c
    case Waiting(_) => W.WaitRank(b.m.m.w) + 10
    case Removing(_) => G.ConsumerRank(b.q.s.c)
    case Peeking => G.ConsumerRank(b.q.s.c)
    case _ => 0
  }

  function ProducerSteps(schedule: seq<Action>, n: nat): nat
    requires n <= |schedule|
  {
    if n == 0 then 0 else ProducerSteps(schedule, n - 1) + (if schedule[n - 1].StepProducer? then 1 else 0)
  }

  function ConsumerSteps(schedule: seq<Action>, n: nat): nat
    requires n <= |schedule|
  {
    if n == 0 then 0 else ConsumerSteps(schedule, n - 1) + (if schedule[n - 1].StepConsumer? then 1 else 0)
  }

  /** The kernel does not make the consumer wait at this step. */
  predicate KernelLets(b: State, a: Action) {
    a.StepConsumer? && b.c.Waiting? ==> W.KernelLets(b.m.m, S.StepWaiter(a.timeout))
  }

  lemma ProducerAdvances(b: State, k: I.Setup, a: Action)
    requires Inv(b, k) && !b.p.PIdle? && !Next(b, a).p.PIdle?
    ensures ProducerRank(Next(b, a)) + (if a.StepProducer? then 1 else 0) <= ProducerRank(b)
  {
    hide Inv, I.Inv, S.Inv, Q.Next, G.ProducerRank, ConsumerGlue;
    StepKeeps(b, k, a);
    Glued(b, k);
    Glued(Next(b, a), k);
    if a.StepProducer? {
      if b.p.Enqueuing? {
        var qa := Q.StepProducer(a.mallocOk, a.bytes);
        if Q.Next(b.q, qa).s.p.PBusy? { G.ProducerAdvances(b.q, qa); }
        G.ProducerRankBounds(b.q.s.p);
      }
    } else if a.CallDequeue? || a.StepConsumer? {
      var qa, sa := ConsumerParts(b, a);
      WaiterLeaves(b.m, sa);
      QC.OthersKeep(b.q, qa);
    }
  }

  lemma ConsumerAdvances(b: State, k: I.Setup, a: Action)
    requires Inv(b, k) && !b.c.CIdle? && !Next(b, a).c.CIdle? && KernelLets(b, a)
    ensures ConsumerRank(Next(b, a)) + (if a.StepConsumer? then 1 else 0) <= ConsumerRank(b)
  {
    hide I.Inv, S.Inv, ProducerGlue, G.ConsumerRank, W.WaitRank, W.KernelLets;
    if a.StepConsumer? {
      ConsumerStepAdvances(b, k, a.timeout);
    } else if a.CallEnqueue? || a.StepProducer? {
      hide Q.Next, S.Next, Next;
      var qa, sa := ProducerParts(b, a);
      SignallerLeaves(b.m, sa);
      QC.OthersKeepConsumer(b.q, qa);
    }
  }

  lemma ConsumerStepAdvances(b: State, k: I.Setup, timeout: bool)
    requires Inv(b, k) && !b.c.CIdle? && !ConsumerStep(b, timeout).c.CIdle?
    requires KernelLets(b, StepConsumer(timeout))
    ensures ConsumerRank(ConsumerStep(b, timeout)) + 1 <= ConsumerRank(b)
  {
    hide I.Inv, S.Inv, ProducerGlue, Q.Next, S.Next, G.ConsumerRank, W.WaitRank, W.KernelLets;
    if b.c.Waiting? {
      W.RankPositive(b.m.m.w);
      if S.Next(b.m, S.StepWaiter(timeout)).m.w.WBusy? {
        W.WaitAdvances(b.m, S.StepWaiter(timeout), 0);
      }
      G.ConsumerRankBounds(Q.Next(b.q, Q.CallConsumer(InnerOp(b.c.op))).s.c);
    } else if Q.Next(b.q, Q.StepConsumer).s.c.CBusy? {
      G.ConsumerAdvances(b.q, Q.StepConsumer);
    } else {
      StepKeeps(b, k, StepConsumer(timeout));
    }
  }

  lemma {:induction false} ProducerSpent(b: State, k: I.Setup, schedule: seq<Action>, n: nat)
    requires Inv(b, k) && n <= |schedule| && forall i :: 0 <= i <= n ==> !After(b, schedule, i).p.PIdle?
    ensures ProducerSteps(schedule, n) + ProducerRank(After(b, schedule, n)) <= ProducerRank(b)
  {
    hide Inv, Next, ProducerRank;
    if n > 0 {
      ProducerSpent(b, k, schedule, n - 1);
      RunKeeps(b, k, schedule, n - 1);
      assert !After(b, schedule, n - 1).p.PIdle? && !After(b, schedule, n).p.PIdle?;
      ProducerAdvances(After(b, schedule, n - 1), k, schedule[n - 1]);
    }
  }

  lemma {:induction false} ConsumerSpent(b: State, k: I.Setup, schedule: seq<Action>, n: nat)
    requires Inv(b, k) && n <= |schedule| && forall i :: 0 <= i <= n ==> !After(b, schedule, i).c.CIdle?
    requires forall i :: 0 <= i < n ==> KernelLets(After(b, schedule, i), schedule[i])
    ensures ConsumerSteps(schedule, n) + ConsumerRank(After(b, schedule, n)) <= ConsumerRank(b)
  {
    hide Inv, Next, ConsumerRank, KernelLets;
    if n > 0 {
      ConsumerSpent(b, k, schedule, n - 1);
      RunKeeps(b, k, schedule, n - 1);
      assert KernelLets(After(b, schedule, n - 1), schedule[n - 1]);
      assert !After(b, schedule, n - 1).c.CIdle? && !After(b, schedule, n).c.CIdle?;
      ConsumerAdvances(After(b, schedule, n - 1), k, schedule[n - 1]);
    }
  }

  lemma Ranks(b: State, k: I.Setup)
    requires Inv(b, k)
    ensures !b.p.PIdle? ==> 1 <= ProducerRank(b) <= 10
    ensures !b.c.CIdle? ==> 1 <= ConsumerRank(b)
    ensures NonBlocking(b.c) ==> ConsumerRank(b) <= 12
  {
    hide I.Inv, S.Inv, G.ProducerRank, G.ConsumerRank, W.WaitRank;
    G.ProducerRankBounds(b.q.s.p);
    G.ConsumerRankBounds(b.q.s.c);
    W.RankPositive(b.m.m.w);
    if b.c.Waiting? && b.c.op in {TryDequeue, Pop} { W.TryWaitNeverBlocks(b.m, 0, S.StepWaiter(false)); }
  }

  /** Every `enqueue` and `try_enqueue` of the blocking queue has answered by the time
      the producer has taken 10 more steps, however the consumer is scheduled. */
  lemma EnqueueEnds(b: State, maxSize: nat, maxBlock: nat, schedule: seq<Action>, n: nat)
    requires Reachable(b, maxSize, maxBlock) && !b.p.PIdle?
    requires n <= |schedule| && ProducerSteps(schedule, n) >= 10
    ensures exists i :: 0 <= i <= n && After(b, schedule, i).p.PIdle?
  {
    hide Inv, Next, Reachable, ProducerRank, ConsumerRank;
    var k := ReachableInv(b, maxSize, maxBlock);
    if forall i :: 0 <= i <= n ==> !After(b, schedule, i).p.PIdle? {
      ProducerSpent(b, k, schedule, n);
      RunKeeps(b, k, schedule, n);
      Ranks(b, k);
      Ranks(After(b, schedule, n), k);
      assert false;
    }
  }

  /** Every dequeue, `pop` and `peek` of the blocking queue ends within its rank, as long
      as the kernel does not make it wait. */
  lemma DequeueEnds(b: State, maxSize: nat, maxBlock: nat, schedule: seq<Action>, n: nat)
    requires Reachable(b, maxSize, maxBlock) && !b.c.CIdle? && n <= |schedule|
    requires forall i :: 0 <= i < n ==> KernelLets(After(b, schedule, i), schedule[i])
    requires ConsumerSteps(schedule, n) >= ConsumerRank(b)
    ensures exists i :: 0 <= i <= n && After(b, schedule, i).c.CIdle?
  {
    hide Inv, Next, Reachable, ProducerRank, ConsumerRank, KernelLets;
    var k := ReachableInv(b, maxSize, maxBlock);
    if forall i :: 0 <= i <= n ==> !After(b, schedule, i).c.CIdle? {
      ConsumerSpent(b, k, schedule, n);
      RunKeeps(b, k, schedule, n);
      Ranks(After(b, schedule, n), k);
      assert false;
    }
  }

  /** The operations that never wait at the kernel. */
  predicate NonBlocking(c: Consumer) {
    match c
    case Waiting(op) => op in {TryDequeue, Pop}
    case Removing(op) => op in {TryDequeue, Pop}
    case Peeking => true
    case _ => false
  }

  lemma NonBlockingStep(b: State, k: I.Setup, a: Action)
    requires Inv(b, k) && NonBlocking(b.c)
    ensures KernelLets(b, a)
    ensures NonBlocking(Next(b, a).c) || Next(b, a).c.CIdle?
  {
    hide Inv, I.Inv, S.Inv, Q.Next, S.Next, W.KernelLets, ProducerGlue;
    StepKeeps(b, k, a);
    Glued(b, k);
    Glued(Next(b, a), k);
    if b.c.Waiting? && a.StepConsumer? { W.TryWaitNeverBlocks(b.m, 0, S.StepWaiter(a.timeout)); }
  }

  lemma {:induction false} NonBlockingRun(b: State, k: I.Setup, schedule: seq<Action>, n: nat)
    requires Inv(b, k) && NonBlocking(b.c) && n <= |schedule|
    requires forall i :: 0 <= i <= n ==> !After(b, schedule, i).c.CIdle?
    ensures NonBlocking(After(b, schedule, n).c)
    ensures forall i :: 0 <= i < n ==> KernelLets(After(b, schedule, i), schedule[i])
  {
    hide Inv, Next, NonBlocking, KernelLets;
    if n > 0 {
      NonBlockingRun(b, k, schedule, n - 1);
      RunKeeps(b, k, schedule, n - 1);
      assert !After(b, schedule, n).c.CIdle?;
      NonBlockingStep(After(b, schedule, n - 1), k, schedule[n - 1]);
    }
  }

  /** Every `try_dequeue`, `pop` and `peek` of the blocking queue has answered by the time
      the consumer has taken 12 more steps, however the producer is scheduled and
      whatever the kernel does. */
  lemma TryDequeueEnds(b: State, maxSize: nat, maxBlock: nat, schedule: seq<Action>, n: nat)
    requires Reachable(b, maxSize, maxBlock) && NonBlocking(b.c)
    requires n <= |schedule| && ConsumerSteps(schedule, n) >= 12
    ensures exists i :: 0 <= i <= n && After(b, schedule, i).c.CIdle?
  {
    hide Inv, Next, Reachable, ProducerRank, ConsumerRank, KernelLets;
    var k := ReachableInv(b, maxSize, maxBlock);
    if forall i :: 0 <= i <= n ==> !After(b, schedule, i).c.CIdle? {
      NonBlockingRun(b, k, schedule, n);
      ConsumerSpent(b, k, schedule, n);
      RunKeeps(b, k, schedule, n);
      Ranks(b, k);
      Ranks(After(b, schedule, n), k);
      assert false;
    }
  }

  /** The consumer's kernel wait gives up at this step, if it comes to that, and a pass of
      the retry loop does not come between the producer's addition and its post. */
  predicate TimeIsUp(b: State, a: Action) {
    a.StepConsumer? && b.c.Waiting? ==> W.TimeIsUp(b.m.m, S.StepWaiter(a.timeout))
  }

  predicate Timed(c: Consumer) {
    match c
    case Waiting(op) => op == WaitDequeueTimed(true)
    case Removing(op) => op == WaitDequeueTimed(true)
    case _ => false
  }

  lemma TimedStep(b: State, k: I.Setup, a: Action)
    requires Inv(b, k) && Timed(b.c) && TimeIsUp(b, a)
    ensures KernelLets(b, a)
    ensures Timed(Next(b, a).c) || Next(b, a).c.CIdle?
  {
    hide Inv, I.Inv, S.Inv, Q.Next, S.Next, W.KernelLets, W.TimeIsUp, ProducerGlue;
    StepKeeps(b, k, a);
    Glued(b, k);
    Glued(Next(b, a), k);
    if b.c.Waiting? && a.StepConsumer? { W.TimedStep(b.m, 0, S.StepWaiter(a.timeout)); }
  }

  lemma {:induction false} TimedRun(b: State, k: I.Setup, schedule: seq<Action>, n: nat)
    requires Inv(b, k) && Timed(b.c) && n <= |schedule|
    requires forall i :: 0 <= i < n ==> TimeIsUp(After(b, schedule, i), schedule[i])
    requires forall i :: 0 <= i <= n ==> !After(b, schedule, i).c.CIdle?
    ensures Timed(After(b, schedule, n).c)
    ensures forall i :: 0 <= i < n ==> KernelLets(After(b, schedule, i), schedule[i])
  {
    hide Inv, Next, Timed, KernelLets, TimeIsUp;
    if n > 0 {
      TimedRun(b, k, schedule, n - 1);
      RunKeeps(b, k, schedule, n - 1);
      assert !After(b, schedule, n).c.CIdle?;
      assert TimeIsUp(After(b, schedule, n - 1), schedule[n - 1]);
      TimedStep(After(b, schedule, n - 1), k, schedule[n - 1]);
    }
  }

  /** A `wait_dequeue_timed` always ends when its time is up, whether an element comes or
      not. */
  lemma TimedDequeueEnds(b: State, maxSize: nat, maxBlock: nat, schedule: seq<Action>, n: nat)
    requires Reachable(b, maxSize, maxBlock) && Timed(b.c) && n <= |schedule|
    requires forall i :: 0 <= i < n ==> TimeIsUp(After(b, schedule, i), schedule[i])
    requires ConsumerSteps(schedule, n) >= ConsumerRank(b)
    ensures exists i :: 0 <= i <= n && After(b, schedule, i).c.CIdle?
  {
    hide Inv, Next, Reachable, ConsumerRank, KernelLets, TimeIsUp;
    var k := ReachableInv(b, maxSize, maxBlock);
    if forall i :: 0 <= i <= n ==> !After(b, schedule, i).c.CIdle? {
      TimedRun(b, k, schedule, n);
      DequeueEnds(b, maxSize, maxBlock, schedule, n);
      assert false;
    }
  }
}
