/** Whole calls of the concurrent queue, from the call to its answer: what each answer
    says about what the call did, under every interleaving. */
module SpscCalls {
  import opened Elements
  import opened Words
  import opened Blocks
  import opened Rings
  import opened Spsc
  import opened SpscInvariant
  import opened SpscProducer
  import opened SpscConsumer
  import opened SpscTheorems
  import opened SpscCapacity

  // ---- Enqueue ----

  /** From configuration `b`, the producer runs a call of `enqueue(v)` (`CanAlloc`) or
      `try_enqueue(v)` and has reached `c`. */
  predicate Enqueuing(b: Config, c: Config, v: Elem, mode: Mode) {
    && c.s.p.PBusy? && c.s.p.v == v && c.s.p.mode == mode
    && c.h.enqueued == b.h.enqueued
    && (c.s.p.at.Malloc? || c.s.p.at.Init? || c.s.p.at.Link? || c.s.p.at.Splice? ==> mode == CanAlloc)
    && |c.s.m.blocks| == |b.s.m.blocks| + BlocksMade(b, c)
  }

  function BlocksMade(b: Config, c: Config): int
    requires c.s.p.PBusy?
  {
    match c.s.p.at
    case Init(_, _) => 1
    case Link(_, _) => 1
    case Splice(_, _) => 1
    case StoreTailBlock(_) =>
      if |c.s.m.blocks| == |b.s.m.blocks| + 1 && c.s.p.mode == CanAlloc then 1 else 0
    case _ => 0
  }

  /** The call has answered in `c`: true exactly if it appended `v`; a `try_enqueue`
      makes no block and otherwise answers for want of room; an `enqueue` makes at most
      one and otherwise answers for want of memory. */
  predicate EnqueueAnswered(b: Config, c: Config, v: Elem, mode: Mode) {
    && c.s.p.PIdle?
    && c.h.enqueued == (if c.s.p.answer == Accepted then b.h.enqueued + [v] else b.h.enqueued)
    && c.s.p.answer in {Accepted, if mode == CanAlloc then OutOfMemory else Refused}
    && |b.s.m.blocks| <= |c.s.m.blocks|
    && |c.s.m.blocks| <= |b.s.m.blocks| + (if mode == CanAlloc && c.s.p.answer == Accepted then 1 else 0)
  }

  lemma BlocksStep(b: Config, c: Config, v: Elem, mode: Mode, a: Action)
    requires Enqueuing(b, c, v, mode) && ProducerSafe(c.s.m, c.s.p.at) && a.StepProducer?
    ensures var c' := Next(c, a);
      && (c'.s.p.PBusy? ==>
          && |c'.s.m.blocks| == |b.s.m.blocks| + BlocksMade(b, c')
          && (c'.s.p.at.Malloc? || c'.s.p.at.Init? || c'.s.p.at.Link? || c'.s.p.at.Splice? ==> mode == CanAlloc))
      && |b.s.m.blocks| <= |c'.s.m.blocks|
      && |c'.s.m.blocks| <= |b.s.m.blocks|
                            + (if mode == CanAlloc && c'.s.p != PIdle(OutOfMemory) then 1 else 0)
      && (c'.s.p == PIdle(Refused) ==> mode == CannotAlloc)
      && (c'.s.p == PIdle(OutOfMemory) ==> mode == CanAlloc)
  {
    hide MaskInc, Observe, ConsumerSafe;
  }

  lemma OthersKeep(c: Config, a: Action)
    requires !a.StepProducer? && (a.CallEnqueue? ==> !c.s.p.PIdle?)
    ensures var c' := Next(c, a);
      c'.s.p == c.s.p && c'.h.enqueued == c.h.enqueued && |c'.s.m.blocks| == |c.s.m.blocks|
  {
    hide MaskInc, ProducerSafe, StepAny;
  }

  lemma EnqueueStep(b: Config, c: Config, k: Setup, v: Elem, mode: Mode, a: Action)
    requires Inv(c, k) && Enqueuing(b, c, v, mode)
    ensures var c' := Next(c, a); Enqueuing(b, c', v, mode) || EnqueueAnswered(b, c', v, mode)
  {
    hide Inv, AbstractQueue, HasQueue, ProducerSafe, Next;
    if a.StepProducer? {
      ProducerIsSafe(c, k);
      ProducerStepCorrect(c, k, a.mallocOk, a.bytes);
      BlocksStep(b, c, v, mode, a);
      NoFaults(Next(c, a), k);
    } else {
      OthersKeep(c, a);
    }
  }

  lemma NoFaults(c: Config, k: Setup)
    requires Inv(c, k)
    ensures !c.s.p.PFault? && !c.s.c.CFault?
  {
    hide RingInv, SizesOk, RoomOk, PeekOk, Queue;
  }

  /** Between steps `n` and `m` of the run the producer makes one call and gets its
      answer. */
  predicate EnqueueCall(c: Config, schedule: seq<Action>, n: nat, m: nat, v: Elem, mode: Mode) {
    && n < m <= |schedule| && schedule[n] == CallEnqueue(v, mode)
    && After(c, schedule, n).s.p.PIdle? && After(c, schedule, m).s.p.PIdle?
    && forall i :: n < i < m ==> After(c, schedule, i).s.p.PBusy?
  }

  lemma EnqueueStarts(c: Config, v: Elem, mode: Mode)
    requires c.s.p.PIdle?
    ensures Enqueuing(c, Next(c, CallEnqueue(v, mode)), v, mode)
  {
  }

  lemma {:induction false} EnqueueRuns(c: Config, k: Setup, schedule: seq<Action>, n: nat, m: nat, i: nat,
                                       v: Elem, mode: Mode)
    requires Inv(c, k) && EnqueueCall(c, schedule, n, m, v, mode) && n < i <= m
    ensures var b, c' := After(c, schedule, n), After(c, schedule, i);
      Enqueuing(b, c', v, mode) || (i == m && EnqueueAnswered(b, c', v, mode))
    decreases i
  {
    hide Inv, Next, Enqueuing, EnqueueAnswered;
    var b := After(c, schedule, n);
    if i == n + 1 {
      EnqueueStarts(b, v, mode);
    } else {
      EnqueueRuns(c, k, schedule, n, m, i - 1, v, mode);
      RunKeeps(c, k, schedule, i - 1);
      assert After(c, schedule, i - 1).s.p.PBusy?;
      EnqueueStep(b, After(c, schedule, i - 1), k, v, mode, schedule[i - 1]);
      if i < m { AnsweredIsIdle(b, After(c, schedule, i), v, mode); }
    }
  }

  lemma AnsweredIsIdle(b: Config, c: Config, v: Elem, mode: Mode)
    ensures EnqueueAnswered(b, c, v, mode) ==> !c.s.p.PBusy?
    ensures Enqueuing(b, c, v, mode) ==> c.s.p.PBusy?
  {
  }

  /** Every call of `enqueue(v)` and `try_enqueue(v)` in every run: it answers true if
      and only if exactly `v` was appended in between. A `try_enqueue` makes no block;
      an `enqueue` makes at most one, and none if it fails. If the call fails, it loaded
      `front` with at least `maxSize` elements in the queue and then found no block
      free; and if that was an `enqueue`, it then asked for memory in vain. */
  lemma EnqueueAnswers(c: Config, maxSize: nat, maxBlock: nat, schedule: seq<Action>, n: nat, m: nat,
                       v: Elem, mode: Mode)
    requires Starts(c, maxSize, maxBlock) && EnqueueCall(c, schedule, n, m, v, mode)
    ensures EnqueueAnswered(After(c, schedule, n), After(c, schedule, m), v, mode)
    ensures After(c, schedule, m).s.p != PIdle(Accepted) ==>
      exists r, j :: n < r && NoRoomFound(c, schedule, r, j, m, maxSize)
    ensures After(c, schedule, m).s.p == PIdle(OutOfMemory) ==>
      exists i :: n < i && AllocationFailed(c, schedule, i, m)
  {
    hide Inv, Next, Starts, Enqueuing, NoRoomFound, AllocationFailed, After;
    var k := StartsInv(c, maxSize, maxBlock);
    EnqueueRuns(c, k, schedule, n, m, m, v, mode);
    AnsweredIsIdle(After(c, schedule, n), After(c, schedule, m), v, mode);
    FirstStep(c, schedule, n, m, v, mode);
    if After(c, schedule, m).s.p != PIdle(Accepted) {
      CapacityGuarantee(c, maxSize, maxBlock, schedule, m);
      var r, j :| NoRoomFound(c, schedule, r, j, m, maxSize);
      NotBefore(c, schedule, r, j, m, maxSize, n + 1);
      if After(c, schedule, m).s.p == PIdle(OutOfMemory) {
        OutOfMemoryExactly(c, maxSize, maxBlock, schedule, m);
        var i :| AllocationFailed(c, schedule, i, m);
        FailedAfter(c, schedule, i, m, n + 1);
      }
    }
  }

  /** Right after the call the producer is at the first step of its body. */
  lemma FirstStep(c: Config, schedule: seq<Action>, n: nat, m: nat, v: Elem, mode: Mode)
    requires EnqueueCall(c, schedule, n, m, v, mode)
    ensures After(c, schedule, n + 1).s.p == PBusy(v, mode, Load) && n + 1 < m
  {
    assert After(c, schedule, n + 1) == Next(After(c, schedule, n), schedule[n]);
  }

  lemma NotBefore(c: Config, schedule: seq<Action>, r: int, j: int, m: int, maxSize: nat, start: nat)
    requires m <= |schedule| && NoRoomFound(c, schedule, r, j, m, maxSize)
    requires start <= m && After(c, schedule, start).s.p.PBusy? && After(c, schedule, start).s.p.at.Load?
    ensures start <= r
  {
    hide After, HasQueue, AbstractQueue, NoBlockFree;
  }

  lemma FailedAfter(c: Config, schedule: seq<Action>, i: int, m: int, start: nat)
    requires m <= |schedule| && AllocationFailed(c, schedule, i, m)
    requires start <= m && After(c, schedule, start).s.p.PBusy? && After(c, schedule, start).s.p.at.Load?
    ensures start <= i
  {
    hide After;
  }

  // ---- Dequeue, pop and peek ----

  /** From configuration `b`, the consumer runs a call of `op` and has reached `c`. */
  predicate Dequeuing(b: Config, c: Config, op: ConsumerOp) {
    c.s.c.CBusy? && c.s.c.op == op && c.h.removed == b.h.removed
  }

  /** The call has answered in `c`. `try_dequeue` answers with an element exactly if it
      removed just that one, `pop` answers true exactly if it removed one, and `peek`
      removes nothing. */
  predicate DequeueAnswered(b: Config, c: Config, op: ConsumerOp) {
    && c.s.c.CIdle?
    && match c.s.c.answer
       case Empty => c.h.removed == b.h.removed
       case Taken(v) => op == TryDequeue && c.h.removed == b.h.removed + [v]
       case Dropped => op == Pop && |c.h.removed| == |b.h.removed| + 1 && b.h.removed <= c.h.removed
       case Seen(block, i) =>
         op == Peek && c.h.removed == b.h.removed && c.h.peeked == Some((block, i))
       case NoAnswer => false
  }

  predicate DequeueCall(c: Config, schedule: seq<Action>, n: nat, m: nat, op: ConsumerOp) {
    && n < m <= |schedule| && schedule[n] == CallConsumer(op)
    && After(c, schedule, n).s.c.CIdle? && After(c, schedule, m).s.c.CIdle?
    && forall i :: n < i < m ==> After(c, schedule, i).s.c.CBusy?
  }

  lemma OthersKeepConsumer(c: Config, a: Action)
    requires a != StepConsumer && (a.CallConsumer? ==> !c.s.c.CIdle?)
    ensures var c' := Next(c, a);
      c'.s.c == c.s.c && c'.h.removed == c.h.removed
  {
    hide MaskInc, SetBlock, ConsumerSafe;
  }

  lemma DequeueStep(b: Config, c: Config, k: Setup, op: ConsumerOp, a: Action)
    requires Inv(c, k) && Dequeuing(b, c, op)
    ensures var c' := Next(c, a); Dequeuing(b, c', op) || DequeueAnswered(b, c', op)
  {
    hide Inv, AbstractQueue, HasQueue, ConsumerSafe, Next, InBlock;
    if a == StepConsumer {
      ConsumerStepCorrect(c, k);
      NoFaults(Next(c, a), k);
    } else {
      OthersKeepConsumer(c, a);
    }
  }

  lemma DequeueStarts(c: Config, op: ConsumerOp)
    requires c.s.c.CIdle?
    ensures Dequeuing(c, Next(c, CallConsumer(op)), op)
    ensures Next(c, CallConsumer(op)).s.c == CBusy(op, CLoad)
  {
  }

  lemma {:induction false} DequeueRuns(c: Config, k: Setup, schedule: seq<Action>, n: nat, m: nat, i: nat,
                                       op: ConsumerOp)
    requires Inv(c, k) && DequeueCall(c, schedule, n, m, op) && n < i <= m
    ensures var b, c' := After(c, schedule, n), After(c, schedule, i);
      Dequeuing(b, c', op) || (i == m && DequeueAnswered(b, c', op))
    decreases i
  {
    hide Inv, Next;
    var b := After(c, schedule, n);
    if i == n + 1 {
      DequeueStarts(b, op);
    } else {
      DequeueRuns(c, k, schedule, n, m, i - 1, op);
      RunKeeps(c, k, schedule, i - 1);
      assert After(c, schedule, i - 1).s.c.CBusy?;
      DequeueStep(b, After(c, schedule, i - 1), k, op, schedule[i - 1]);
    }
  }

  /** Every call of `try_dequeue`, `pop` and `peek` in every run: it answers with what it
      removed, and removes nothing when it answers that the queue is empty, which was
      then so at its own load of `tail`. */
  lemma DequeueAnswers(c: Config, maxSize: nat, maxBlock: nat, schedule: seq<Action>, n: nat, m: nat,
                       op: ConsumerOp)
    requires Starts(c, maxSize, maxBlock) && DequeueCall(c, schedule, n, m, op)
    ensures DequeueAnswered(After(c, schedule, n), After(c, schedule, m), op)
    ensures After(c, schedule, m).s.c == CIdle(Empty) ==>
      exists r :: n < r && EmptyWhenTailRead(c, schedule, r, m)
  {
    hide Inv, Next, Starts, EmptyWhenTailRead, DequeueAnswered;
    var k := StartsInv(c, maxSize, maxBlock);
    DequeueRuns(c, k, schedule, n, m, m, op);
    if After(c, schedule, m).s.c == CIdle(Empty) {
      HonestEmptiness(c, maxSize, maxBlock, schedule, m);
      var r :| EmptyWhenTailRead(c, schedule, r, m);
      DequeueStarts(After(c, schedule, n), op);
      assert After(c, schedule, n + 1) == Next(After(c, schedule, n), schedule[n]);
      ReadAfter(c, schedule, r, m, n + 1);
    }
  }

  lemma ReadAfter(c: Config, schedule: seq<Action>, r: int, m: int, start: nat)
    requires m <= |schedule| && EmptyWhenTailRead(c, schedule, r, m)
    requires start <= m && After(c, schedule, start).s.c.CBusy? && After(c, schedule, start).s.c.at.CLoad?
    ensures start <= r
  {
    hide After, HasQueue, AbstractQueue;
  }
}
