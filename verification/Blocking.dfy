/** The blocking queue: the concurrent queue and the semaphore composed. Each
    thread runs one operation of `BlockingReaderWriterQueue` at a time; a step is
    one step of the queue or of the semaphore inside it. The comments give the
    lines of include/readerwriterqueue.h. */
module Blocking {
  import opened Elements
  import opened Words
  import opened Blocks
  import opened Rings
  import Q = Spsc
  import I = SpscInvariant
  import P = SpscProducer
  import C = SpscConsumer
  import T = SpscTheorems
  import S = Semaphores

  /** A timed wait with a negative timeout is an untimed one. */
  datatype Op = TryDequeue | WaitDequeue | WaitDequeueTimed(timed: bool) | Pop | Peek

  datatype Producer =
    | PIdle(answer: bool)
    | Enqueuing                     // inside inner.enqueue or inner.try_enqueue (660, 685)
    | Signalling                    // inside sema.signal() (661, 686)

  datatype Consumer =
    | CIdle(answer: Q.ConsumerAnswer)
    | Waiting(op: Op)               // inside sema.tryWait() or sema.wait() (711, 726, 743, 784)
    | Removing(op: Op)              // inside inner.try_dequeue() or inner.pop() (712, 727, 746, 785)
    | Peeking                       // inside inner.peek() (776)
    | CFault                        // assert(success) failed (713, 729, 748, 786)

  datatype State = State(q: Q.Config, m: S.Config, p: Producer, c: Consumer)

  datatype Action =
    | CallEnqueue(v: Elem, mode: Q.Mode)
    | StepProducer(mallocOk: bool, bytes: Elem)
    | CallDequeue(op: Op, spins: nat)
    | StepConsumer(timeout: bool)

  function WaitFor(op: Op): S.WaitOp {
    match op
    case TryDequeue => S.TryWait
    case Pop => S.TryWait
    case WaitDequeueTimed(timed) => S.Wait(timed)
    case _ => S.Wait(false)
  }

  function InnerOp(op: Op): Q.ConsumerOp {
    if op == Pop then Q.Pop else Q.TryDequeue
  }

  function ProducerStep(b: State, ok: bool, bytes: Elem): State {
    match b.p
    case PIdle(_) => b
    case Enqueuing =>
      var q := Q.Next(b.q, Q.StepProducer(ok, bytes));
      if q.s.p == Q.PIdle(Q.Accepted) then
        b.(q := q, m := S.Next(b.m, S.CallSignal(1)), p := Signalling)
      else b.(q := q, p := if q.s.p.PIdle? then PIdle(false) else Enqueuing)
    case Signalling =>
      var m := S.Next(b.m, S.StepSignaller);
      b.(m := m, p := if m.m.s.SIdle? then PIdle(true) else Signalling)
  }

  function ConsumerStep(b: State, timeout: bool): State {
    match b.c
    case Waiting(op) =>
      var m := S.Next(b.m, S.StepWaiter(timeout));
      if m.m.w == S.WIdle(S.Granted) then
        b.(m := m, q := Q.Next(b.q, Q.CallConsumer(InnerOp(op))), c := Removing(op))
      else b.(m := m, c := if m.m.w.WIdle? then CIdle(Q.Empty) else b.c)
    case Removing(op) =>
      var q := Q.Next(b.q, Q.StepConsumer);
      b.(q := q, c := if !q.s.c.CIdle? then b.c
                      else if q.s.c.answer == Q.Empty then CFault
                      else CIdle(q.s.c.answer))
    case Peeking =>
      var q := Q.Next(b.q, Q.StepConsumer);
      b.(q := q, c := if q.s.c.CIdle? then CIdle(q.s.c.answer) else b.c)
    case _ => b
  }

  function Next(b: State, a: Action): State {
    match a
    case CallEnqueue(v, mode) =>
      if b.p.PIdle? then b.(q := Q.Next(b.q, Q.CallEnqueue(v, mode)), p := Enqueuing) else b
    case StepProducer(ok, bytes) => ProducerStep(b, ok, bytes)
    case CallDequeue(op, spins) =>
      if !b.c.CIdle? then b
      else if op == Peek then b.(q := Q.Next(b.q, Q.CallConsumer(Q.Peek)), c := Peeking)
      else b.(m := S.Next(b.m, S.CallWait(WaitFor(op), spins)), c := Waiting(op))
    case StepConsumer(timeout) => ConsumerStep(b, timeout)
  }

  function Initial(maxSize: nat, maxBlock: nat, bytes: Elem): State
    requires maxBlock >= 2
  {
    State(Q.InitialConfig(maxSize, maxBlock, bytes), S.Initial(0), PIdle(false), CIdle(Q.NoAnswer))
  }

  function After(b: State, schedule: seq<Action>, n: nat): State
    requires n <= |schedule|
  {
    if n == 0 then b else Next(After(b, schedule, n - 1), schedule[n - 1])
  }

  // ---- The invariant of the composition ----

  /** The producer's element is published but its permit is not added yet. */
  predicate Unsignalled(b: State) { b.p.Signalling? && b.m.m.s.Add? }

  ghost predicate ProducerGlue(b: State) {
    && (b.p.PIdle? ==> b.q.s.p.PIdle? && b.m.m.s.SIdle?)
    && (b.p.Enqueuing? ==> b.q.s.p.PBusy? && b.m.m.s.SIdle?)
    && (b.p.Signalling? ==> b.q.s.p.PIdle? && (b.m.m.s == S.Add(1) || b.m.m.s.Post?))
    && |b.q.h.enqueued| == b.m.t.signalled + (if Unsignalled(b) then 1 else 0)
  }

  ghost predicate ConsumerGlue(b: State) {
    && !b.c.CFault?
    && (b.c.CIdle? ==> b.q.s.c.CIdle? && b.m.m.w.WIdle?)
    && (b.c.Waiting? ==> b.q.s.c.CIdle? && b.m.m.w.WBusy? && b.m.m.w.op == WaitFor(b.c.op))
    && (b.c.Removing? ==>
        && b.q.s.c.CBusy? && b.q.s.c.op == InnerOp(b.c.op) && b.m.m.w == S.WIdle(S.Granted)
        && (b.q.s.c.at.ReadTailBlock? ==> !b.q.h.sawEmpty))
    && (b.c.Peeking? ==> b.q.s.c.CBusy? && b.q.s.c.op == Q.Peek && b.m.m.w.WIdle?)
    && |b.q.h.removed| + (if b.c.Removing? then 1 else 0) == b.m.t.granted
  }

  ghost predicate Inv(b: State, k: I.Setup) {
    I.Inv(b.q, k) && S.Inv(b.m, 0) && ProducerGlue(b) && ConsumerGlue(b)
  }

  lemma PermitsCovered(m: S.Config)
    requires S.Inv(m, 0)
    ensures m.t.granted <= m.t.signalled
  {
  }

  lemma ProducerStepKeeps(b: State, k: I.Setup, ok: bool, bytes: Elem)
    requires Inv(b, k)
    ensures Inv(ProducerStep(b, ok, bytes), k)
  {
    hide I.Inv, I.HasQueue, I.AbstractQueue, Q.Next;
    match b.p
    case PIdle(_) =>
    case Enqueuing =>
      P.ProducerStepCorrect(b.q, k, ok, bytes);
      ProducerAnswers(b.q, k, ok, bytes);
      S.StepKeeps(b.m, S.CallSignal(1), 0);
    case Signalling => S.StepKeeps(b.m, S.StepSignaller, 0);
  }

  /** A producer step of the queue leaves it busy or with an answer. */
  lemma ProducerAnswers(q: Q.Config, k: I.Setup, ok: bool, bytes: Elem)
    requires I.Inv(q, k) && q.s.p.PBusy?
    ensures var q' := Q.Next(q, Q.StepProducer(ok, bytes));
      !q'.s.p.PFault? && q'.s.c == q.s.c && q'.h.sawEmpty == q.h.sawEmpty
  {
    P.ProducerStepCorrect(q, k, ok, bytes);
    ProducerKeepsSawEmpty(q, ok, bytes);
    hide I.Linked, I.SizesOk, RingInv, I.RoomOk, I.ConsumerKnows, I.PeekOk, Q.Step, Q.Observe, I.View;
  }

  lemma ProducerKeepsSawEmpty(q: Q.Config, ok: bool, bytes: Elem)
    ensures Q.Next(q, Q.StepProducer(ok, bytes)).h.sawEmpty == q.h.sawEmpty
  {
    hide Q.Step, Q.ProducerSafe, Q.ConsumerSafe;
  }

  lemma WaitKeeps(b: State, k: I.Setup, timeout: bool)
    requires Inv(b, k) && b.c.Waiting?
    ensures Inv(ConsumerStep(b, timeout), k)
  {
    hide I.Inv, S.Inv, I.HasQueue, I.AbstractQueue;
    S.StepKeeps(b.m, S.StepWaiter(timeout), 0);
    T.CallKeeps(b.q, k, Q.CallConsumer(InnerOp(b.c.op)));
  }

  /** Where the consumer's step of the queue can lead. */
  lemma ConsumerAnswers(q: Q.Config, k: I.Setup)
    requires I.Inv(q, k) && q.s.c.CBusy?
    ensures var q' := Q.Next(q, Q.StepConsumer);
      && !q'.s.c.CFault?
      && (q'.s.c.CBusy? && q'.s.c.at.ReadTailBlock? ==> q'.h.sawEmpty == (Q.Length(q.h) == 0))
      && (q'.s.c == Q.CIdle(Q.Empty) ==> q.s.c.at.ReadTailBlock?)
  {
    hide I.Inv, Q.ConsumerSafe, T.HasReadTail, T.AboutToReadTail;
    C.ConsumerIsSafe(q, k);
    T.NoConsumerFault(q, k);
    ConsumerPaths(q);
  }

  lemma ConsumerPaths(q: Q.Config)
    requires q.s.c.CBusy? && Q.ConsumerSafe(q.s.m, q.s.c.at)
    ensures var q' := Q.Next(q, Q.StepConsumer);
      && (q'.s.c.CBusy? && q'.s.c.at.ReadTailBlock? ==> q'.h.sawEmpty == (Q.Length(q.h) == 0))
      && (q'.s.c == Q.CIdle(Q.Empty) ==> q.s.c.at.ReadTailBlock?)
  {
    hide Q.ConsumerSafe, MaskInc, Q.SetBlock;
  }

  /** A permit in hand means that the queue holds an element nobody has removed. */
  lemma PermitMeansElement(b: State, k: I.Setup)
    requires Inv(b, k) && b.c.Removing?
    ensures Q.Length(b.q.h) > 0
  {
    PermitsCovered(b.m);
  }

  /** A consumer step of the queue removes one element exactly when it answers a
      `try_dequeue` or a `pop` otherwise than with `Empty`. */
  lemma RemovalCounts(q: Q.Config, k: I.Setup)
    requires I.Inv(q, k) && q.s.c.CBusy?
    ensures var q' := Q.Next(q, Q.StepConsumer);
      && I.Inv(q', k) && q'.s.p == q.s.p && q'.h.enqueued == q.h.enqueued
      && (q'.s.c.CBusy? ==> q'.s.c.op == q.s.c.op)
      && (q'.s.c == Q.CIdle(Q.Empty) ==> q.h.sawEmpty)
      && |q'.h.removed| == |q.h.removed|
           + (if q'.s.c.CIdle? && q.s.c.op != Q.Peek && q'.s.c.answer != Q.Empty then 1 else 0)
  {
    hide I.Inv, I.HasQueue, I.AbstractQueue, Q.Next;
    C.ConsumerStepCorrect(q, k);
  }

  lemma RemoveKeeps(b: State, k: I.Setup)
    requires Inv(b, k) && b.c.Removing?
    ensures Inv(ConsumerStep(b, false), k)
  {
    hide I.Inv, S.Inv, Q.Next;
    PermitMeansElement(b, k);
    RemovalCounts(b.q, k);
    ConsumerAnswers(b.q, k);
  }

  lemma PeekKeeps(b: State, k: I.Setup)
    requires Inv(b, k) && b.c.Peeking?
    ensures Inv(ConsumerStep(b, false), k)
  {
    hide I.Inv, S.Inv, Q.Next;
    RemovalCounts(b.q, k);
    ConsumerAnswers(b.q, k);
  }

  lemma CallKeeps(b: State, k: I.Setup, a: Action)
    requires Inv(b, k) && (a.CallEnqueue? || a.CallDequeue?)
    ensures Inv(Next(b, a), k)
  {
    hide I.Inv, S.Inv;
    match a
    case CallEnqueue(v, mode) => T.CallKeeps(b.q, k, Q.CallEnqueue(v, mode));
    case CallDequeue(op, spins) =>
      T.CallKeeps(b.q, k, Q.CallConsumer(Q.Peek));
      S.StepKeeps(b.m, S.CallWait(WaitFor(op), spins), 0);
  }

  lemma StepKeeps(b: State, k: I.Setup, a: Action)
    requires Inv(b, k)
    ensures Inv(Next(b, a), k)
  {
    hide Inv, ProducerStep;
    match a
    case CallEnqueue(_, _) => CallKeeps(b, k, a);
    case CallDequeue(_, _) => CallKeeps(b, k, a);
    case StepProducer(ok, bytes) => ProducerStepKeeps(b, k, ok, bytes);
    case StepConsumer(timeout) =>
      if b.c.Waiting? { WaitKeeps(b, k, timeout); }
      else if b.c.Removing? { RemoveKeeps(b, k); }
      else if b.c.Peeking? { PeekKeeps(b, k); }
  }

  lemma {:induction false} RunKeeps(b: State, k: I.Setup, schedule: seq<Action>, n: nat)
    requires Inv(b, k) && n <= |schedule|
    ensures Inv(After(b, schedule, n), k)
  {
    hide Inv, Next;
    if n > 0 {
      RunKeeps(b, k, schedule, n - 1);
      StepKeeps(After(b, schedule, n - 1), k, schedule[n - 1]);
    }
  }

  ghost predicate Reachable(b: State, maxSize: nat, maxBlock: nat) {
    && maxSize >= 1 && maxBlock >= 2 && IsPow2(maxBlock)
    && exists bytes: Elem, schedule: seq<Action> ::
      b == After(Initial(maxSize, maxBlock, bytes), schedule, |schedule|)
  }

  lemma InitialInv(maxSize: nat, maxBlock: nat, bytes: Elem)
    requires maxSize >= 1 && maxBlock >= 2 && IsPow2(maxBlock)
    ensures Inv(Initial(maxSize, maxBlock, bytes), T.SetupOf(maxSize, maxBlock, bytes))
  {
    hide I.Inv;
    T.InitialInv(maxSize, maxBlock, bytes);
    T.InitialIdle(maxSize, maxBlock, bytes);
  }

  lemma ReachableInv(b: State, maxSize: nat, maxBlock: nat) returns (k: I.Setup)
    requires Reachable(b, maxSize, maxBlock)
    ensures Inv(b, k)
  {
    hide Inv, After, Initial, T.SetupOf;
    var bytes: Elem, schedule: seq<Action> :|
      b == After(Initial(maxSize, maxBlock, bytes), schedule, |schedule|);
    k := T.SetupOf(maxSize, maxBlock, bytes);
    InitialInv(maxSize, maxBlock, bytes);
    RunKeeps(Initial(maxSize, maxBlock, bytes), k, schedule, |schedule|);
  }

  // ---- The main results ----

  /** In every interleaving: elements published >= permits added >= permits granted
      >= elements removed, and no `assert(success)` or `assert(result)` fails: a
      consumer with a permit never finds the inner queue empty. */
  lemma PermitGuaranteesElement(b: State, maxSize: nat, maxBlock: nat)
    requires Reachable(b, maxSize, maxBlock)
    ensures !b.c.CFault?
    ensures |b.q.h.removed| <= b.m.t.granted <= b.m.t.signalled <= |b.q.h.enqueued|
    ensures b.c.Removing? ==> I.HasQueue(b.q) && I.AbstractQueue(b.q) != []
  {
    var k := ReachableInv(b, maxSize, maxBlock);
    PermitsCovered(b.m);
    T.InvHasQueue(b.q, k);
    hide I.Inv, I.HasQueue, I.AbstractQueue, Reachable;
  }

  /** A dequeue answers `false` only if it may give up, and only at a moment when
      the queue holds nothing but, perhaps, the one element whose producer has not
      added its permit yet. An untimed `wait_dequeue` never gives up. */
  lemma RefusalMeansEmpty(b: State, maxSize: nat, maxBlock: nat, timeout: bool)
    requires Reachable(b, maxSize, maxBlock) && b.c.Waiting?
    requires Next(b, StepConsumer(timeout)).c == CIdle(Q.Empty)
    ensures b.c.op != WaitDequeue && b.c.op != WaitDequeueTimed(false)
    ensures I.HasQueue(b.q) && |I.AbstractQueue(b.q)| == if Unsignalled(b) then 1 else 0
  {
    hide Inv, Reachable, I.Inv, I.HasQueue, I.AbstractQueue, Next, Unsignalled;
    var k := ReachableInv(b, maxSize, maxBlock);
    RefusalAt(b, k, timeout);
  }

  lemma RefusalAt(b: State, k: I.Setup, timeout: bool)
    requires Inv(b, k) && b.c.Waiting? && Next(b, StepConsumer(timeout)).c == CIdle(Q.Empty)
    ensures b.c.op != WaitDequeue && b.c.op != WaitDequeueTimed(false)
    ensures I.HasQueue(b.q) && |I.AbstractQueue(b.q)| == if Unsignalled(b) then 1 else 0
  {
    hide I.Inv, I.HasQueue, I.AbstractQueue, Q.Next, S.Next, S.Inv;
    T.InvHasQueue(b.q, k);
    WaitAnswers(b.m, timeout);
    S.RefusedWhenNoneLeft(b.m, 0, timeout);
  }

  lemma WaitAnswers(m: S.Config, timeout: bool)
    requires m.m.w.WBusy? && S.Next(m, S.StepWaiter(timeout)).m.w.WIdle?
    ensures S.Next(m, S.StepWaiter(timeout)).m.w in {S.WIdle(S.Granted), S.WIdle(S.Refused)}
  {
  }

  // ---- Peek ----

  /** A step of the blocking queue is at most one step of the queue inside it. */
  lemma InnerStep(b: State, a: Action) returns (inner: Q.Action)
    ensures Next(b, a).q == b.q || Next(b, a).q == Q.Next(b.q, inner)
  {
    hide Q.Next, S.Next;
    inner := match a
      case CallEnqueue(v, mode) => Q.CallEnqueue(v, mode)
      case StepProducer(ok, bytes) => Q.StepProducer(ok, bytes)
      case CallDequeue(_, _) => Q.CallConsumer(Q.Peek)
      case StepConsumer(_) => if b.c.Waiting? then Q.CallConsumer(InnerOp(b.c.op)) else Q.StepConsumer;
  }

  lemma {:induction false} PeekKept(b: State, schedule: seq<Action>, n: nat)
    requires n <= |schedule| && b.q.h.peeked.Some?
    ensures var h, h' := b.q.h, After(b, schedule, n).q.h;
      && h.enqueued <= h'.enqueued && h.removed <= h'.removed
      && (h'.removed == h.removed ==> h'.peeked.Some?)
  {
    hide Next, Q.Next;
    if n > 0 {
      PeekKept(b, schedule, n - 1);
      var inner := InnerStep(After(b, schedule, n - 1), schedule[n - 1]);
      T.LogsGrow(After(b, schedule, n - 1).q, inner);
    }
  }

  /** After a `peek` of the blocking queue that found an element, and whatever the
      threads do then: the next element removed is the one seen. Until then a dequeue
      may still answer `false`, but only while the element's producer has not added
      its permit. */
  lemma BlockingPeek(b: State, maxSize: nat, maxBlock: nat, schedule: seq<Action>, n: nat, timeout: bool)
    requires Reachable(b, maxSize, maxBlock) && b.c.Peeking? && n <= |schedule|
    requires Next(b, StepConsumer(timeout)).c.CIdle? && Next(b, StepConsumer(timeout)).c.answer.Seen?
    ensures var b1 := Next(b, StepConsumer(timeout)); var b2 := After(b1, schedule, n);
      var at, i := b1.c.answer.block, b1.c.answer.index;
      && Q.InBlock(b1.q.s.m, at, i) && b1.q.s.m.blocks[at].slots[i].live
      && b1.q.h.removed <= b2.q.h.removed
      && (b2.q.h.removed != b1.q.h.removed ==>
           b2.q.h.removed[|b1.q.h.removed|] == b1.q.s.m.blocks[at].slots[i].val)
      && (b2.q.h.removed == b1.q.h.removed && b2.c.Waiting? && Next(b2, StepConsumer(timeout)).c == CIdle(Q.Empty) ==>
           Unsignalled(b2))
  {
    hide Inv, Reachable, I.Inv, I.HasQueue, I.AbstractQueue, Next, After, Unsignalled, Q.InBlock, Q.Next;
    var k := ReachableInv(b, maxSize, maxBlock);
    StepKeeps(b, k, StepConsumer(timeout));
    var b1 := Next(b, StepConsumer(timeout));
    var b2 := After(b1, schedule, n);
    RunKeeps(b1, k, schedule, n);
    PeekSeen(b, k, timeout);
    PeekKept(b1, schedule, n);
    InnerLogs(b1, k);
    InnerLogs(b2, k);
    var at := |b1.q.h.removed|;
    if b2.q.h.removed != b1.q.h.removed {
      assert b2.q.h.removed[at] == b2.q.h.enqueued[at] == b1.q.h.enqueued[at];
    } else if b2.c.Waiting? && Next(b2, StepConsumer(timeout)).c == CIdle(Q.Empty) {
      RefusalAt(b2, k, timeout);
    }
  }

  lemma InnerLogs(b: State, k: I.Setup)
    requires Inv(b, k)
    ensures I.HasQueue(b.q) && b.q.h.enqueued == b.q.h.removed + I.AbstractQueue(b.q)
  {
    hide I.Inv, I.HasQueue, I.AbstractQueue;
    T.InvHasQueue(b.q, k);
  }

  lemma PeekSeen(b: State, k: I.Setup, timeout: bool)
    requires Inv(b, k) && b.c.Peeking?
    requires Next(b, StepConsumer(timeout)).c.CIdle? && Next(b, StepConsumer(timeout)).c.answer.Seen?
    ensures var b1 := Next(b, StepConsumer(timeout));
      var at, i := b1.c.answer.block, b1.c.answer.index;
      && I.HasQueue(b1.q) && b1.q.h.peeked.Some? && I.AbstractQueue(b1.q) != []
      && Q.InBlock(b1.q.s.m, at, i)
      && b1.q.s.m.blocks[at].slots[i] == Slot(true, I.AbstractQueue(b1.q)[0])
  {
    hide I.Inv, I.HasQueue, I.AbstractQueue, Q.Next, Q.InBlock, S.Inv;
    T.PeekAnswer(b.q, k);
  }

  /** The blocking queue is a FIFO queue too, and its size never exceeds what the
      queue holds. */
  lemma BlockingFifo(b: State, maxSize: nat, maxBlock: nat)
    requires Reachable(b, maxSize, maxBlock)
    ensures I.HasQueue(b.q) && b.q.h.enqueued == b.q.h.removed + I.AbstractQueue(b.q)
    ensures b.m.m.count <= |I.AbstractQueue(b.q)|
  {
    var k := ReachableInv(b, maxSize, maxBlock);
    T.InvHasQueue(b.q, k);
    hide I.Inv, I.HasQueue, I.AbstractQueue, Reachable;
  }

  /** `size_approx`: `sema.availableApprox()`. */
  function SizeApprox(b: State): int {
    if b.m.m.count > 0 then b.m.m.count else 0
  }

  /** In every reachable state, with operations in progress or not, the semaphore-based
      size is at most the length of the inner queue; it falls short of it by exactly one
      for an element published without its permit yet, one for a permit granted whose
      element is still being removed, and one for a waiter that has taken its permit
      off the counter but not been granted it. */
  lemma SizeExact(b: State, maxSize: nat, maxBlock: nat)
    requires Reachable(b, maxSize, maxBlock)
    ensures I.HasQueue(b.q)
    ensures |I.AbstractQueue(b.q)| == SizeApprox(b)
      + (if Unsignalled(b) then 1 else 0)
      + (if b.c.Removing? then 1 else 0)
      + (if S.Outstanding(b.m.m.w) && b.m.t.signalled > b.m.t.granted then 1 else 0)
  {
    hide I.Inv, I.HasQueue, I.AbstractQueue, Reachable;
    var k := ReachableInv(b, maxSize, maxBlock);
    T.InvHasQueue(b.q, k);
  }

  /** When no operation is in progress, the semaphore-based size is the length of
      the inner queue. */
  lemma SizeAgrees(b: State, maxSize: nat, maxBlock: nat)
    requires Reachable(b, maxSize, maxBlock) && b.p.PIdle? && b.c.CIdle?
    ensures I.HasQueue(b.q) && SizeApprox(b) == |I.AbstractQueue(b.q)|
  {
    hide I.Inv, I.HasQueue, I.AbstractQueue, Reachable;
    var k := ReachableInv(b, maxSize, maxBlock);
    T.InvHasQueue(b.q, k);
  }
}
