/** Progress of the concurrent queue: every call answers after a bounded number of
    its own thread's steps, whatever the other thread does in between. */
module SpscProgress {
  import opened Elements
  import opened Words
  import opened Blocks
  import opened Rings
  import opened Spsc
  import opened SpscInvariant
  import opened SpscProducer
  import opened SpscConsumer
  import opened SpscTheorems

  /** The longest way from where the producer is to its answer. */
  function ProducerRank(p: Producer): nat {
    if !p.PBusy? then 0
    else match p.at
      case Load => 8
      case ReadFront(_, _, _) => 7
      case Construct(_, _, _) => 2
      case StoreTail(_, _) => 1
      case CheckNext(_) => 6
      case NextFront(_) => 5
      case NextTail(_, _) => 4
      case NextConstruct(_, _) => 3
      case NextStoreTail(_, _) => 2
      case Malloc(_) => 5
      case Init(_, _) => 4
      case Link(_, _) => 3
      case Splice(_, _) => 2
      case StoreTailBlock(_) => 1
  }

  function ConsumerRank(c: Consumer): nat {
    if !c.CBusy? then 0
    else match c.at
      case CLoad => 10
      case ReadTail(_, _) => 9
      case ReadTailBlock(_) => 8
      case Reread => 7
      case ReadNext(_) => 6
      case ReadNextTail(_) => 5
      case Advance(_, _) => 4
      case Move(_, _) => 3
      case Destroy(_, _, _) => 2
      case StoreFront(_, _, _) => 1
  }

  /** How many of the first `n` actions are steps of the producer, of the consumer. */
  function ProducerSteps(schedule: seq<Action>, n: nat): nat
    requires n <= |schedule|
  {
    if n == 0 then 0 else ProducerSteps(schedule, n - 1) + (if schedule[n - 1].StepProducer? then 1 else 0)
  }

  function ConsumerSteps(schedule: seq<Action>, n: nat): nat
    requires n <= |schedule|
  {
    if n == 0 then 0 else ConsumerSteps(schedule, n - 1) + (if schedule[n - 1].StepConsumer? then 1 else 0)
  }

  /** A step of the producer brings it nearer to its answer; nothing else moves it. */
  lemma ProducerAdvances(c: Config, a: Action)
    requires c.s.p.PBusy? && Next(c, a).s.p.PBusy?
    ensures ProducerRank(Next(c, a).s.p) + (if a.StepProducer? then 1 else 0) <= ProducerRank(c.s.p)
  {
    hide MaskInc, SetBlock, Observe, ConsumerSafe;
    if a.StepConsumer? {
      assert Next(c, a).s.p == c.s.p by { ConsumerLeavesProducer(c.s); }
    }
  }

  lemma ConsumerLeavesProducer(s: State)
    ensures Step(s, StepConsumer).p == s.p
  {
    hide MaskInc, SetBlock;
  }

  lemma ProducerLeavesConsumer(s: State, ok: bool, bytes: Elem)
    ensures Step(s, StepProducer(ok, bytes)).c == s.c
  {
    hide MaskInc, SetBlock;
  }

  lemma ConsumerAdvances(c: Config, a: Action)
    requires c.s.c.CBusy? && Next(c, a).s.c.CBusy?
    ensures ConsumerRank(Next(c, a).s.c) + (if a.StepConsumer? then 1 else 0) <= ConsumerRank(c.s.c)
  {
    hide MaskInc, SetBlock, Observe, ProducerSafe;
    if a.StepProducer? {
      assert Next(c, a).s.c == c.s.c by { ProducerLeavesConsumer(c.s, a.mallocOk, a.bytes); }
    }
  }

  lemma {:induction false} ProducerSpent(c: Config, schedule: seq<Action>, n: nat)
    requires n <= |schedule| && forall i :: 0 <= i <= n ==> After(c, schedule, i).s.p.PBusy?
    ensures ProducerSteps(schedule, n) + ProducerRank(After(c, schedule, n).s.p) <= ProducerRank(c.s.p)
  {
    hide Next, ProducerRank;
    if n > 0 {
      ProducerSpent(c, schedule, n - 1);
      assert After(c, schedule, n).s.p.PBusy? && After(c, schedule, n - 1).s.p.PBusy?;
      ProducerAdvances(After(c, schedule, n - 1), schedule[n - 1]);
    }
  }

  lemma {:induction false} ConsumerSpent(c: Config, schedule: seq<Action>, n: nat)
    requires n <= |schedule| && forall i :: 0 <= i <= n ==> After(c, schedule, i).s.c.CBusy?
    ensures ConsumerSteps(schedule, n) + ConsumerRank(After(c, schedule, n).s.c) <= ConsumerRank(c.s.c)
  {
    hide Next, ConsumerRank;
    if n > 0 {
      ConsumerSpent(c, schedule, n - 1);
      assert After(c, schedule, n).s.c.CBusy? && After(c, schedule, n - 1).s.c.CBusy?;
      ConsumerAdvances(After(c, schedule, n - 1), schedule[n - 1]);
    }
  }

  lemma NeverFault(c: Config, k: Setup)
    requires Inv(c, k)
    ensures !c.s.p.PFault? && !c.s.c.CFault?
  {
    hide RingInv, SizesOk, RoomOk, PeekOk, Queue;
  }

  lemma ProducerRankBounds(p: Producer)
    ensures ProducerRank(p) <= 8 && (p.PBusy? ==> ProducerRank(p) >= 1)
  {
  }

  lemma ConsumerRankBounds(c: Consumer)
    ensures ConsumerRank(c) <= 10 && (c.CBusy? ==> ConsumerRank(c) >= 1)
  {
  }

  /** Every `enqueue` and `try_enqueue` is wait-free, allocation counted as one step:
      however the consumer is scheduled, the call has answered by the time the
      producer has taken 8 more steps. */
  lemma EnqueueWaitFree(c: Config, maxSize: nat, maxBlock: nat, schedule: seq<Action>, n: nat)
    requires Reachable(c, maxSize, maxBlock) && c.s.p.PBusy?
    requires n <= |schedule| && ProducerSteps(schedule, n) >= 8
    ensures exists i :: 0 <= i <= n && After(c, schedule, i).s.p.PIdle?
  {
    hide Reachable, Inv, Next, ProducerRank;
    var k := ReachableInv(c, maxSize, maxBlock);
    if forall i :: 0 <= i <= n ==> After(c, schedule, i).s.p.PBusy? {
      ProducerSpent(c, schedule, n);
      ProducerRankBounds(c.s.p);
      ProducerRankBounds(After(c, schedule, n).s.p);
      assert false;
    }
    var i :| 0 <= i <= n && !After(c, schedule, i).s.p.PBusy?;
    RunKeeps(c, k, schedule, i);
    NeverFault(After(c, schedule, i), k);
  }

  /** Every `try_dequeue`, `pop` and `peek` is wait-free: however the producer is
      scheduled, the call has answered by the time the consumer has taken 10 more
      steps. */
  lemma DequeueWaitFree(c: Config, maxSize: nat, maxBlock: nat, schedule: seq<Action>, n: nat)
    requires Reachable(c, maxSize, maxBlock) && c.s.c.CBusy?
    requires n <= |schedule| && ConsumerSteps(schedule, n) >= 10
    ensures exists i :: 0 <= i <= n && After(c, schedule, i).s.c.CIdle?
  {
    hide Reachable, Inv, Next, ConsumerRank;
    var k := ReachableInv(c, maxSize, maxBlock);
    if forall i :: 0 <= i <= n ==> After(c, schedule, i).s.c.CBusy? {
      ConsumerSpent(c, schedule, n);
      ConsumerRankBounds(c.s.c);
      ConsumerRankBounds(After(c, schedule, n).s.c);
      assert false;
    }
    var i :| 0 <= i <= n && !After(c, schedule, i).s.c.CBusy?;
    RunKeeps(c, k, schedule, i);
    NeverFault(After(c, schedule, i), k);
  }

  // ---- Longer runs ----

  lemma {:induction false} AfterPrefix(c: Config, schedule: seq<Action>, a: Action, n: nat)
    requires n <= |schedule|
    ensures After(c, schedule + [a], n) == After(c, schedule, n)
  {
    hide Next;
    if n > 0 {
      AfterPrefix(c, schedule, a, n - 1);
      assert (schedule + [a])[n - 1] == schedule[n - 1];
    }
  }

  /** One more action makes one more reachable configuration. */
  lemma ReachableNext(c: Config, a: Action, maxSize: nat, maxBlock: nat)
    requires Reachable(c, maxSize, maxBlock)
    ensures Reachable(Next(c, a), maxSize, maxBlock)
  {
    hide Next, InitialConfig;
    var bytes: Elem, schedule: seq<Action> :|
      c == After(InitialConfig(maxSize, maxBlock, bytes), schedule, |schedule|);
    var c0, longer := InitialConfig(maxSize, maxBlock, bytes), schedule + [a];
    AfterPrefix(c0, schedule, a, |schedule|);
    assert After(c0, longer, |longer|) == Next(After(c0, longer, |schedule|), a);
  }

  lemma StartReachable(maxSize: nat, maxBlock: nat, bytes: Elem)
    requires maxSize >= 1 && maxBlock >= 2 && IsPow2(maxBlock)
    ensures Reachable(InitialConfig(maxSize, maxBlock, bytes), maxSize, maxBlock)
  {
    hide InitialConfig, Next;
    assert After(InitialConfig(maxSize, maxBlock, bytes), [], 0) == InitialConfig(maxSize, maxBlock, bytes);
  }

  /** An `enqueue` that always gets its memory goes through, with the consumer
      standing still. */
  lemma {:induction false} Finish(c: Config, maxSize: nat, maxBlock: nat, bytes: Elem) returns (c': Config)
    requires Reachable(c, maxSize, maxBlock) && c.s.p.PBusy? && c.s.p.mode == CanAlloc
    ensures Reachable(c', maxSize, maxBlock) && c'.s.p == PIdle(Accepted)
    ensures c'.h.enqueued == c.h.enqueued + [c.s.p.v] && c'.h.removed == c.h.removed
    decreases ProducerRank(c.s.p)
  {
    hide Reachable, Inv, HasQueue, AbstractQueue, Next, ProducerRank;
    var a := StepProducer(true, bytes);
    var k := ReachableInv(c, maxSize, maxBlock);
    ReachableNext(c, a, maxSize, maxBlock);
    ProducerStepCorrect(c, k, true, bytes);
    NeverFault(Next(c, a), k);
    if Next(c, a).s.p.PBusy? {
      ProducerAdvances(c, a);
      c' := Finish(Next(c, a), maxSize, maxBlock, bytes);
    } else {
      c' := Next(c, a);
    }
  }

  lemma Called(c: Config, v: Elem)
    requires c.s.p.PIdle?
    ensures Next(c, CallEnqueue(v, CanAlloc)) == c.(s := c.s.(p := PBusy(v, CanAlloc, Load)))
  {
  }

  /** Runs of nothing but successful enqueues, of any length. */
  lemma {:induction false} Fill(maxSize: nat, maxBlock: nat, v: Elem, n: nat) returns (c: Config)
    requires maxSize >= 1 && maxBlock >= 2 && IsPow2(maxBlock)
    ensures Reachable(c, maxSize, maxBlock) && c.s.p.PIdle? && |c.h.enqueued| == n && c.h.removed == []
  {
    hide Reachable, Inv, Next, IsPow2;
    if n == 0 {
      c := InitialConfig(maxSize, maxBlock, v);
      StartReachable(maxSize, maxBlock, v);
    } else {
      var before := Fill(maxSize, maxBlock, v, n - 1);
      Called(before, v);
      ReachableNext(before, CallEnqueue(v, CanAlloc), maxSize, maxBlock);
      c := Finish(Next(before, CallEnqueue(v, CanAlloc)), maxSize, maxBlock, v);
    }
  }
}
