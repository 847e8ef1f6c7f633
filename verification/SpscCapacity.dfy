/** Full answers of the concurrent queue: when an enqueue gives up or allocates. */
module SpscCapacity {
  import opened Elements
  import opened Words
  import opened Blocks
  import opened Rings
  import opened Spsc
  import opened SpscInvariant
  import opened SpscProducer
  import opened SpscConsumer
  import opened SpscTheorems

  predicate AboutToReadFront(c: Config) { c.s.p.PBusy? && c.s.p.at.ReadFront? }
  predicate AboutToCheckNext(c: Config) { c.s.p.PBusy? && c.s.p.at.CheckNext? }
  predicate AboutToAllocate(c: Config) { c.s.p.PBusy? && c.s.p.at.Malloc? }
  predicate AnsweredRefused(c: Config) { c.s.p == PIdle(Refused) }
  predicate AnsweredOutOfMemory(c: Config) { c.s.p == PIdle(OutOfMemory) }

  /** The producer has found no room: it is about to make a block, or has given up. */
  predicate NoRoomLeft(c: Config) {
    AboutToAllocate(c) || AnsweredRefused(c) || AnsweredOutOfMemory(c)
  }

  /** The block after the tail block is the front block: no block is free. */
  predicate NoBlockFree(m: Memory) {
    0 <= m.tailBlock < |m.next| && m.next[m.tailBlock] == m.frontBlock
  }

  // ---- Which step leads where ----

  lemma IntoCheckNext(c: Config, a: Action)
    requires c.s.p.PBusy? ==> ProducerSafe(c.s.m, c.s.p.at)
    requires AboutToCheckNext(Next(c, a))
    ensures
      || (AboutToCheckNext(c) && !a.StepProducer? && Next(c, a).h.lengthSeen == c.h.lengthSeen)
      || (AboutToReadFront(c) && a.StepProducer? && Next(c, a).h.lengthSeen == Length(c.h))
  {
    hide ConsumerSafe, ProducerSafe, MaskInc, SetBlock;
  }

  lemma IntoAllocate(c: Config, a: Action)
    requires c.s.p.PBusy? ==> ProducerSafe(c.s.m, c.s.p.at)
    requires AboutToAllocate(Next(c, a))
    ensures
      || (AboutToAllocate(c) && !a.StepProducer?)
      || (AboutToCheckNext(c) && a.StepProducer? && c.s.p.mode == CanAlloc
          && 0 <= c.s.p.at.tb < |c.s.m.next| && c.s.m.next[c.s.p.at.tb] == c.s.m.frontBlock)
  {
    hide ConsumerSafe, MaskInc, SetBlock, Observe;
  }

  lemma IntoRefused(c: Config, a: Action)
    requires c.s.p.PBusy? ==> ProducerSafe(c.s.m, c.s.p.at)
    requires AnsweredRefused(Next(c, a))
    ensures
      || AnsweredRefused(c)
      || (AboutToCheckNext(c) && a.StepProducer? && c.s.p.mode == CannotAlloc
          && 0 <= c.s.p.at.tb < |c.s.m.next| && c.s.m.next[c.s.p.at.tb] == c.s.m.frontBlock)
  {
    hide ConsumerSafe, MaskInc, SetBlock, Observe;
  }

  lemma IntoOutOfMemory(c: Config, a: Action)
    requires AnsweredOutOfMemory(Next(c, a))
    ensures AnsweredOutOfMemory(c) || (AboutToAllocate(c) && a.StepProducer? && !a.mallocOk)
  {
    hide ConsumerSafe, ProducerSafe, MaskInc, SetBlock, Observe;
  }

  /** Blocks are made nowhere else. */
  lemma OnlyMallocGrows(c: Config, a: Action)
    ensures |Next(c, a).s.m.blocks| > |c.s.m.blocks| ==> AboutToAllocate(c) && a.StepProducer? && a.mallocOk
  {
    hide MaskInc, Observe;
  }

  /** The producer looks behind the tail block. If no block is free there, at least
      `maxSize` elements were in the queue at its load of `front`. */
  lemma CheckSeen(c: Config, k: Setup)
    requires Inv(c, k) && AboutToCheckNext(c)
    ensures c.s.p.at.tb == c.s.m.tailBlock
    ensures NoBlockFree(c.s.m) ==> c.h.lengthSeen >= k.maxSize
  {
    hide RingInv, SizesOk, RoomOk, ConsumerKnows, PeekOk, Queue, Usable;
    Places(c, k);
    hide Linked;
  }

  lemma IntoNoRoomLeft(c: Config, k: Setup, a: Action)
    requires Inv(c, k) && NoRoomLeft(Next(c, a))
    ensures NoRoomLeft(c) || (AboutToCheckNext(c) && a.StepProducer? && NoBlockFree(c.s.m))
  {
    hide Inv, Next, ProducerSafe;
    if c.s.p.PBusy? { ProducerIsSafe(c, k); }
    if AboutToCheckNext(c) { CheckSeen(c, k); }
    if AboutToAllocate(Next(c, a)) {
      IntoAllocate(c, a);
    } else if AnsweredRefused(Next(c, a)) {
      IntoRefused(c, a);
    } else {
      IntoOutOfMemory(c, a);
    }
  }

  // ---- Back along the run ----

  lemma {:induction false} WhenChecked(c: Config, k: Setup, schedule: seq<Action>, m: nat) returns (j: nat)
    requires Inv(c, k) && c.s.p == PIdle(NotCalled) && m <= |schedule| && NoRoomLeft(After(c, schedule, m))
    ensures j < m && AboutToCheckNext(After(c, schedule, j)) && schedule[j].StepProducer?
    ensures NoBlockFree(After(c, schedule, j).s.m)
    ensures forall i :: j < i <= m ==> NoRoomLeft(After(c, schedule, i))
    decreases m
  {
    hide Inv, Next, NoBlockFree;
    assert !NoRoomLeft(c);
    hide NoRoomLeft, AboutToCheckNext;
    RunKeeps(c, k, schedule, m - 1);
    IntoNoRoomLeft(After(c, schedule, m - 1), k, schedule[m - 1]);
    if NoRoomLeft(After(c, schedule, m - 1)) {
      j := WhenChecked(c, k, schedule, m - 1);
    } else {
      j := m - 1;
    }
  }

  lemma {:induction false} WhenFrontWasRead(c: Config, k: Setup, schedule: seq<Action>, m: nat) returns (n: nat)
    requires Inv(c, k) && c.s.p.PIdle? && m <= |schedule| && AboutToCheckNext(After(c, schedule, m))
    ensures n < m && AboutToReadFront(After(c, schedule, n)) && schedule[n].StepProducer?
    ensures After(c, schedule, m).h.lengthSeen == Length(After(c, schedule, n).h)
    ensures forall i :: n < i <= m ==> AboutToCheckNext(After(c, schedule, i))
    decreases m
  {
    hide Inv, Next, AboutToReadFront, Length, ProducerSafe;
    assert !AboutToCheckNext(c);
    var before := After(c, schedule, m - 1);
    RunKeeps(c, k, schedule, m - 1);
    if before.s.p.PBusy? { ProducerIsSafe(before, k); }
    IntoCheckNext(before, schedule[m - 1]);
    hide AboutToCheckNext;
    if AboutToCheckNext(before) && !schedule[m - 1].StepProducer? {
      n := WhenFrontWasRead(c, k, schedule, m - 1);
    } else {
      n := m - 1;
    }
  }

  // ---- The main results ----

  /** Of the call that still runs, or has answered, at step `m`: step `n` of the run is
      its load of `front` at 452, with `maxSize` elements in the queue; step `j` is its
      look behind the tail block at 463, with no block free there. */
  ghost predicate NoRoomFound(c: Config, schedule: seq<Action>, n: int, j: int, m: int, maxSize: nat)
    requires m <= |schedule|
  {
    && 0 <= n < j < m && schedule[n].StepProducer? && AboutToReadFront(After(c, schedule, n))
    && HasQueue(After(c, schedule, n)) && |AbstractQueue(After(c, schedule, n))| >= maxSize
    && schedule[j].StepProducer? && NoBlockFree(After(c, schedule, j).s.m)
    && (forall i :: n < i <= j ==> AboutToCheckNext(After(c, schedule, i)))
    && (forall i :: j < i <= m ==> NoRoomLeft(After(c, schedule, i)))
  }

  /** In any run, if the producer's last answer is a refusal or a lack of memory, or the
      producer is about to make a block, then the same call loaded `front` at 452 with
      at least `maxSize` elements in the queue, and then found no block free. So while
      fewer are held, or a block is free, `try_enqueue` and `enqueue` succeed and do
      not allocate. */
  lemma CapacityGuarantee(c: Config, maxSize: nat, maxBlock: nat, schedule: seq<Action>, m: nat)
    requires Starts(c, maxSize, maxBlock) && m <= |schedule| && NoRoomLeft(After(c, schedule, m))
    ensures exists n, j :: NoRoomFound(c, schedule, n, j, m, maxSize)
  {
    hide Inv, Next, NoRoomLeft, NoBlockFree, AboutToCheckNext, AboutToReadFront, AbstractQueue, HasQueue, Starts;
    hide After;
    var k := StartsInv(c, maxSize, maxBlock);
    var j := WhenChecked(c, k, schedule, m);
    var n := WhenFrontWasRead(c, k, schedule, j);
    RunKeeps(c, k, schedule, j);
    CheckSeen(After(c, schedule, j), k);
    RunKeeps(c, k, schedule, n);
    InvHasQueue(After(c, schedule, n), k);
    assert NoRoomFound(c, schedule, n, j, m, maxSize);
  }

  /** Step `i` of the run is the failed allocation of the call that answered last. */
  ghost predicate AllocationFailed(c: Config, schedule: seq<Action>, i: int, m: int)
    requires m <= |schedule|
  {
    && 0 <= i < m && AboutToAllocate(After(c, schedule, i))
    && schedule[i].StepProducer? && !schedule[i].mallocOk
    && (forall l :: i < l <= m ==> AnsweredOutOfMemory(After(c, schedule, l)))
  }

  /** In any run, a call that answers for lack of memory has just asked for memory in
      vain. */
  lemma {:induction false} OutOfMemoryExactly(c: Config, maxSize: nat, maxBlock: nat, schedule: seq<Action>, m: nat)
    requires Starts(c, maxSize, maxBlock) && m <= |schedule| && AnsweredOutOfMemory(After(c, schedule, m))
    ensures exists i :: AllocationFailed(c, schedule, i, m)
    decreases m
  {
    hide Next, Inv, Starts;
    var k := StartsInv(c, maxSize, maxBlock);
    assert !AnsweredOutOfMemory(c);
    hide AboutToAllocate, AnsweredOutOfMemory;
    IntoOutOfMemory(After(c, schedule, m - 1), schedule[m - 1]);
    if AnsweredOutOfMemory(After(c, schedule, m - 1)) {
      OutOfMemoryExactly(c, maxSize, maxBlock, schedule, m - 1);
      var i :| AllocationFailed(c, schedule, i, m - 1);
      assert AllocationFailed(c, schedule, i, m);
    } else {
      assert AllocationFailed(c, schedule, m - 1, m);
    }
  }

  /** Some run leads here in which the producer's last call found no room. */
  ghost predicate NoRoomRun(c: Config, maxSize: nat, maxBlock: nat) {
    exists c0: Config, schedule: seq<Action>, n: int, j: int ::
      && Starts(c0, maxSize, maxBlock) && c == After(c0, schedule, |schedule|)
      && NoRoomFound(c0, schedule, n, j, |schedule|, maxSize)
  }

  lemma NoRoomReachable(c: Config, maxSize: nat, maxBlock: nat)
    requires Reachable(c, maxSize, maxBlock) && NoRoomLeft(c)
    ensures NoRoomRun(c, maxSize, maxBlock)
  {
    hide InitialConfig, After, NoRoomLeft, NoRoomFound, IsPow2;
    var bytes: Elem, schedule: seq<Action> :|
      c == After(InitialConfig(maxSize, maxBlock, bytes), schedule, |schedule|);
    var c0 := InitialConfig(maxSize, maxBlock, bytes);
    assert Starts(c0, maxSize, maxBlock);
    CapacityGuarantee(c0, maxSize, maxBlock, schedule, |schedule|);
    var n, j :| NoRoomFound(c0, schedule, n, j, |schedule|, maxSize);
  }
}
