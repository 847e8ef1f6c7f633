/** The queue under concurrency, as a step machine: one producer thread and one
    consumer thread interleaved in any order, sequentially consistent.

    A step performs at most one load of a variable the other thread writes, or one
    store to a variable the other thread reads, together with any accesses to
    variables only this thread touches. Reads of its own variables by the thread
    that alone writes them are merged into the step that uses them. */
module Spsc {
  import opened Elements
  import opened Words
  import opened Blocks
  import opened Rings

  /** A block pointer is an index into the heap of blocks; blocks are never freed
      while the threads run. */
  const NULL := -1

  datatype Mode = CanAlloc | CannotAlloc

  /** Where in `inner_enqueue` the producer is; the comments give the lines of
      include/readerwriterqueue.h that the next step performs. */
  datatype ProducerAt =
    | Load                                          // 447-452, first half of the test
    | ReadFront(tb: int, bt: nat, nbt: nat)         // 452, second half of the test
    | Construct(tb: int, bt: nat, nbt: nat)         // 455-456
    | StoreTail(tb: int, nbt: nat)                  // 459
    | CheckNext(tb: int)                            // 463, 490, 517
    | NextFront(tb: int)                            // 472-473
    | NextTail(nb: int, nf: nat)                    // 474-480
    | NextConstruct(nb: int, nt: nat)               // 482-483
    | NextStoreTail(nb: int, nt: nat)               // 485
    | Malloc(tb: int)                               // 492-498
    | Init(tb: int, nb: int)                        // 500-503
    | Link(tb: int, nb: int)                        // 505
    | Splice(tb: int, nb: int)                      // 506
    | StoreTailBlock(nb: int)                       // 488, 515

  /** `Refused`: no room and not allowed to allocate. `OutOfMemory`: `make_block`
      failed. Both make the operation return false. */
  datatype EnqueueAnswer = NotCalled | Accepted | Refused | OutOfMemory

  datatype Producer =
    | PIdle(answer: EnqueueAnswer)
    | PBusy(v: Elem, mode: Mode, at: ProducerAt)
    | PFault

  datatype ConsumerOp = TryDequeue | Pop | Peek

  /** Where in `try_dequeue` the consumer is; the lines of `pop` and `peek` stand
      beside their own steps below. */
  datatype ConsumerAt =
    | CLoad                                         // 229-233, first half of the test
    | ReadTail(fb: int, bf: nat)                    // 233, second half of the test
    | ReadTailBlock(fb: int)                        // 247
    | Reread                                        // 250-255
    | ReadNext(fb: int)                             // 261
    | ReadNextTail(nb: int)                         // 266-272
    | Advance(nb: int, nf: nat)                     // 277
    | Move(fb: int, bf: nat)                        // 238-239, 281-283
    | Destroy(fb: int, bf: nat, moved: Option<Elem>) // 240, 284
    | StoreFront(fb: int, bf: nat, v: Elem)         // 242-245, 286-289

  datatype ConsumerAnswer = NoAnswer | Empty | Taken(v: Elem) | Dropped | Seen(block: int, index: nat)

  datatype Consumer =
    | CIdle(answer: ConsumerAnswer)
    | CBusy(op: ConsumerOp, at: ConsumerAt)
    | CFault

  datatype Memory = Memory(
    blocks: seq<Block>, next: seq<int>, frontBlock: int, tailBlock: int,
    largest: nat, maxBlock: nat)

  datatype State = State(m: Memory, p: Producer, c: Consumer)

  /** One scheduling decision. What `malloc` returns, and the bytes found in the
      storage it returns, are decided by the environment. */
  datatype Action =
    | CallEnqueue(v: Elem, mode: Mode)
    | StepProducer(mallocOk: bool, bytes: Elem)
    | CallConsumer(op: ConsumerOp)
    | StepConsumer

  // ---- The constructor's result ----

  function CeilPow2From(p: nat, x: nat): (r: nat)
    requires p > 0
    decreases x - p
  {
    if x <= p then p else CeilPow2From(2 * p, x)
  }

  /** The value of `ceilToPow2` on arguments for which it does not wrap. */
  function CeilPow2(x: nat): nat { CeilPow2From(1, x) }

  lemma {:induction false} CeilPow2FromLeast(p: nat, x: nat)
    requires IsPow2(p)
    requires forall q: nat :: IsPow2(q) && x <= q ==> p <= q
    ensures p > 0 && LeastPow2AtLeast(CeilPow2From(p, x), x)
    decreases x - p
  {
    if p < x {
      var k: nat :| p == Pow2(k);
      assert 2 * p == Pow2(k + 1);
      forall q: nat | IsPow2(q) && x <= q ensures 2 * p <= q { Pow2Gap(p, q); }
      CeilPow2FromLeast(2 * p, x);
    }
  }

  lemma CeilPow2Least(x: nat)
    ensures LeastPow2AtLeast(CeilPow2(x), x)
  {
    assert 1 == Pow2(0);
    CeilPow2FromLeast(1, x);
  }

  predicate ManyBlocks(maxSize: nat, maxBlock: nat) {
    CeilPow2(maxSize + 1) > maxBlock * 2
  }

  function InitialSize(maxSize: nat, maxBlock: nat): nat {
    if ManyBlocks(maxSize, maxBlock) then maxBlock else CeilPow2(maxSize + 1)
  }

  function InitialCount(maxSize: nat, maxBlock: nat): nat
    requires maxBlock >= 2
  {
    if ManyBlocks(maxSize, maxBlock) then (maxSize + maxBlock * 2 - 3) / (maxBlock - 1) else 1
  }

  function EmptyBlock(size: nat, bytes: Elem): Block {
    Block(0, 0, 0, 0, seq(size, _ => Slot(false, bytes)))
  }

  function InitialState(maxSize: nat, maxBlock: nat, bytes: Elem): State
    requires maxBlock >= 2
  {
    var n, size := InitialCount(maxSize, maxBlock), InitialSize(maxSize, maxBlock);
    State(
      Memory(seq(n, _ => EmptyBlock(size, bytes)), seq(n, i => if i + 1 == n then 0 else i + 1),
             0, 0, size, maxBlock),
      PIdle(NotCalled), CIdle(NoAnswer))
  }

  // ---- The producer ----

  predicate InHeap(m: Memory, b: int) {
    0 <= b < |m.blocks| && b < |m.next| && |m.blocks[b].slots| > 0
  }

  predicate InBlock(m: Memory, b: int, i: nat) {
    InHeap(m, b) && i < |m.blocks[b].slots|
  }

  /** Every pointer and slot index the next step uses is valid. */
  predicate ProducerSafe(m: Memory, at: ProducerAt) {
    match at
    case Load => InHeap(m, m.tailBlock)
    case ReadFront(tb, _, _) => InHeap(m, tb)
    case Construct(tb, bt, _) => InBlock(m, tb, bt)
    case StoreTail(tb, _) => InHeap(m, tb)
    case CheckNext(tb) => InHeap(m, tb)
    case NextFront(tb) => InHeap(m, tb) && InHeap(m, m.next[tb])
    case NextTail(nb, _) => InHeap(m, nb)
    case NextConstruct(nb, nt) => InBlock(m, nb, nt)
    case NextStoreTail(nb, _) => InHeap(m, nb)
    case Malloc(_) => |m.next| == |m.blocks|
    case Init(_, nb) => InBlock(m, nb, 0)
    case Link(tb, nb) => InHeap(m, tb) && InHeap(m, nb)
    case Splice(tb, nb) => InHeap(m, tb)
    case StoreTailBlock(_) => true
  }

  function SetBlock(m: Memory, b: int, x: Block): Memory
    requires 0 <= b < |m.blocks|
  {
    m.(blocks := m.blocks[b := x])
  }

  /** The size of the next block to be made (492). */
  function GrownSize(largest: nat, maxBlock: nat): nat {
    if largest >= maxBlock then largest else largest * 2
  }

  /** It stays a power of two of at most twice MAX_BLOCK_SIZE. */
  lemma GrownSizeOk(largest: nat, maxBlock: nat)
    requires IsPow2(largest) && IsPow2(maxBlock) && 2 <= largest <= 2 * maxBlock
    ensures IsPow2(GrownSize(largest, maxBlock)) && largest <= GrownSize(largest, maxBlock) <= 2 * maxBlock
  {
    if largest < maxBlock { Pow2Gap(largest, maxBlock); }
  }

  function StepEnqueue(s: State, ok: bool, bytes: Elem): State
    requires s.p.PBusy? && ProducerSafe(s.m, s.p.at)
  {
    var m, v, mode := s.m, s.p.v, s.p.mode;
    match s.p.at
    case Load =>
      var b := m.blocks[m.tailBlock];
      var nbt := MaskInc(b.tail, |b.slots|);
      if nbt != b.localFront then
        s.(p := PBusy(v, mode, Construct(m.tailBlock, b.tail, nbt)))
      else
        s.(p := PBusy(v, mode, ReadFront(m.tailBlock, b.tail, nbt)))
    case ReadFront(tb, bt, nbt) =>
      var f := m.blocks[tb].front;
      State(SetBlock(m, tb, m.blocks[tb].(localFront := f)),
            PBusy(v, mode, if nbt != f then Construct(tb, bt, nbt) else CheckNext(tb)), s.c)
    case Construct(tb, bt, nbt) =>
      var b := m.blocks[tb];
      if b.slots[bt].live then s.(p := PFault)
      else State(SetBlock(m, tb, b.(slots := b.slots[bt := Slot(true, v)])),
                 PBusy(v, mode, StoreTail(tb, nbt)), s.c)
    case StoreTail(tb, nbt) =>
      State(SetBlock(m, tb, m.blocks[tb].(tail := nbt)), PIdle(Accepted), s.c)
    case CheckNext(tb) =>
      if m.next[tb] != m.frontBlock then s.(p := PBusy(v, mode, NextFront(tb)))
      else if mode == CanAlloc then s.(p := PBusy(v, mode, Malloc(tb)))
      else s.(p := PIdle(Refused))
    case NextFront(tb) =>
      var nb := m.next[tb];
      var nf := m.blocks[nb].front;
      State(SetBlock(m, nb, m.blocks[nb].(localFront := nf)), PBusy(v, mode, NextTail(nb, nf)), s.c)
    case NextTail(nb, nf) =>
      var nt := m.blocks[nb].tail;
      if nf != nt then s.(p := PFault)                       // the assert at 479
      else State(SetBlock(m, nb, m.blocks[nb].(localFront := nf)),
                 PBusy(v, mode, NextConstruct(nb, nt)), s.c)
    case NextConstruct(nb, nt) =>
      var b := m.blocks[nb];
      if b.slots[nt].live then s.(p := PFault)
      else State(SetBlock(m, nb, b.(slots := b.slots[nt := Slot(true, v)])),
                 PBusy(v, mode, NextStoreTail(nb, nt)), s.c)
    case NextStoreTail(nb, nt) =>
      var b := m.blocks[nb];
      State(SetBlock(m, nb, b.(tail := MaskInc(nt, |b.slots|))), PBusy(v, mode, StoreTailBlock(nb)), s.c)
    case Malloc(tb) =>
      if !ok then s.(p := PIdle(OutOfMemory))
      else
        var nb, size := |m.blocks|, GrownSize(m.largest, m.maxBlock);
        State(m.(blocks := m.blocks + [EmptyBlock(size, bytes)], next := m.next + [NULL], largest := size),
              PBusy(v, mode, Init(tb, nb)), s.c)
    case Init(tb, nb) =>
      var b := m.blocks[nb];
      if b.slots[0].live || b.front != 0 then s.(p := PFault)  // construction, and the assert at 502
      else State(SetBlock(m, nb, b.(slots := b.slots[0 := Slot(true, v)], tail := 1, localTail := 1)),
                 PBusy(v, mode, Link(tb, nb)), s.c)
    case Link(tb, nb) =>
      State(m.(next := m.next[nb := m.next[tb]]), PBusy(v, mode, Splice(tb, nb)), s.c)
    case Splice(tb, nb) =>
      State(m.(next := m.next[tb := nb]), PBusy(v, mode, StoreTailBlock(nb)), s.c)
    case StoreTailBlock(nb) =>
      State(m.(tailBlock := nb), PIdle(Accepted), s.c)
  }

  // ---- The consumer ----

  predicate ConsumerSafe(m: Memory, at: ConsumerAt) {
    match at
    case CLoad => InHeap(m, m.frontBlock)
    case ReadTail(fb, _) => InHeap(m, fb)
    case ReadTailBlock(_) => true
    case Reread => InHeap(m, m.frontBlock)
    case ReadNext(fb) => InHeap(m, fb)
    case ReadNextTail(nb) => InHeap(m, nb)
    case Advance(_, _) => true
    case Move(fb, bf) => InBlock(m, fb, bf)
    case Destroy(fb, bf, _) => InBlock(m, fb, bf)
    case StoreFront(fb, _, _) => InHeap(m, fb)
  }

  /** `try_dequeue` (206-297). */
  function StepTryDequeue(s: State): State
    requires s.c.CBusy? && ConsumerSafe(s.m, s.c.at)
  {
    var m := s.m;
    match s.c.at
    case CLoad =>
      var b := m.blocks[m.frontBlock];
      s.(c := CBusy(TryDequeue, if b.front != b.localTail then Move(m.frontBlock, b.front)
                                else ReadTail(m.frontBlock, b.front)))
    case ReadTail(fb, bf) =>
      var t := m.blocks[fb].tail;
      State(SetBlock(m, fb, m.blocks[fb].(localTail := t)), s.p,
            CBusy(TryDequeue, if bf != t then Move(fb, bf) else ReadTailBlock(fb)))
    case ReadTailBlock(fb) =>
      s.(c := if fb != m.tailBlock then CBusy(TryDequeue, Reread) else CIdle(Empty))
    case Reread =>
      var fb := m.frontBlock;
      var b := m.blocks[fb];
      State(SetBlock(m, fb, b.(localTail := b.tail)), s.p,
            CBusy(TryDequeue, if b.front != b.tail then Move(fb, b.front) else ReadNext(fb)))
    case ReadNext(fb) => s.(c := CBusy(TryDequeue, ReadNextTail(m.next[fb])))
    case ReadNextTail(nb) =>
      var b := m.blocks[nb];
      if b.front == b.tail then s.(c := CFault)              // the assert at 272
      else State(SetBlock(m, nb, b.(localTail := b.tail)), s.p, CBusy(TryDequeue, Advance(nb, b.front)))
    case Advance(nb, nf) => State(m.(frontBlock := nb), s.p, CBusy(TryDequeue, Move(nb, nf)))
    case Move(fb, bf) =>
      var slot := m.blocks[fb].slots[bf];
      if !slot.live then s.(c := CFault) else s.(c := CBusy(TryDequeue, Destroy(fb, bf, Some(slot.val))))
    case Destroy(fb, bf, moved) =>
      var b := m.blocks[fb];
      var slot := b.slots[bf];
      if !slot.live || moved.None? then s.(c := CFault)
      else State(SetBlock(m, fb, b.(slots := b.slots[bf := slot.(live := false)])), s.p,
                 CBusy(TryDequeue, StoreFront(fb, bf, moved.value)))
    case StoreFront(fb, bf, v) =>
      var b := m.blocks[fb];
      State(SetBlock(m, fb, b.(front := MaskInc(bf, |b.slots|))), s.p, CIdle(Taken(v)))
  }

  /** `pop` (347-410). What it hands to its last step is the observer's copy of the
      element destroyed; no line of `pop` reads it. */
  function StepPop(s: State): State
    requires s.c.CBusy? && ConsumerSafe(s.m, s.c.at)
  {
    var m := s.m;
    match s.c.at
    case CLoad =>                                                // 354-358
      var fb := m.frontBlock;
      if m.blocks[fb].front != m.blocks[fb].localTail
      then s.(c := CBusy(Pop, Destroy(fb, m.blocks[fb].front, None)))
      else s.(c := CBusy(Pop, ReadTail(fb, m.blocks[fb].front)))
    case ReadTail(fb, bf) =>                                     // 358
      var m' := SetBlock(m, fb, m.blocks[fb].(localTail := m.blocks[fb].tail));
      if bf != m'.blocks[fb].localTail then State(m', s.p, CBusy(Pop, Destroy(fb, bf, None)))
      else State(m', s.p, CBusy(Pop, ReadTailBlock(fb)))
    case ReadTailBlock(fb) =>                                    // 370, 404-406
      if fb == m.tailBlock then s.(c := CIdle(Empty)) else s.(c := CBusy(Pop, Reread))
    case Reread =>                                               // 372-379
      var fb := m.frontBlock;
      var m' := SetBlock(m, fb, m.blocks[fb].(localTail := m.blocks[fb].tail));
      if m'.blocks[fb].front != m'.blocks[fb].localTail
      then State(m', s.p, CBusy(Pop, Destroy(fb, m'.blocks[fb].front, None)))
      else State(m', s.p, CBusy(Pop, ReadNext(fb)))
    case ReadNext(fb) => s.(c := CBusy(Pop, ReadNextTail(m.next[fb])))   // 382
    case ReadNextTail(nb) =>                                     // 384-388
      var m' := SetBlock(m, nb, m.blocks[nb].(localTail := m.blocks[nb].tail));
      if m'.blocks[nb].front != m'.blocks[nb].localTail
      then State(m', s.p, CBusy(Pop, Advance(nb, m'.blocks[nb].front)))
      else s.(c := CFault)
    case Advance(nb, nf) =>                                      // 392
      State(m.(frontBlock := nb), s.p, CBusy(Pop, Destroy(nb, nf, None)))
    case Move(_, _) => s.(c := CFault)                           // pop moves nothing
    case Destroy(fb, bf, _) =>                                   // 362-363, 396-397
      var slot := m.blocks[fb].slots[bf];
      if slot.live
      then State(SetBlock(m, fb, m.blocks[fb].(slots := m.blocks[fb].slots[bf := Slot(false, slot.val)])), s.p,
                 CBusy(Pop, StoreFront(fb, bf, slot.val)))
      else s.(c := CFault)
    case StoreFront(fb, bf, _) =>                                // 365-368, 399-402
      State(SetBlock(m, fb, m.blocks[fb].(front := MaskInc(bf, |m.blocks[fb].slots|))), s.p, CIdle(Dropped))
  }

  /** `peek` (305-342). */
  function StepPeek(s: State): State
    requires s.c.CBusy? && ConsumerSafe(s.m, s.c.at)
  {
    var m := s.m;
    match s.c.at
    case CLoad =>                                                // 312-316
      var b := m.blocks[m.frontBlock];
      s.(c := if b.front != b.localTail then CIdle(Seen(m.frontBlock, b.front))
              else CBusy(Peek, ReadTail(m.frontBlock, b.front)))
    case ReadTail(fb, bf) =>                                     // 316
      var m' := SetBlock(m, fb, m.blocks[fb].(localTail := m.blocks[fb].tail));
      State(m', s.p, if bf != m.blocks[fb].tail then CIdle(Seen(fb, bf)) else CBusy(Peek, ReadTailBlock(fb)))
    case ReadTailBlock(fb) =>                                    // 321, 341
      s.(c := if fb != m.tailBlock then CBusy(Peek, Reread) else CIdle(Empty))
    case Reread =>                                               // 323-330
      var fb := m.frontBlock;
      var b := m.blocks[fb];
      State(SetBlock(m, fb, b.(localTail := b.tail)), s.p,
            if b.front != b.tail then CIdle(Seen(fb, b.front)) else CBusy(Peek, ReadNext(fb)))
    case ReadNext(fb) => s.(c := CBusy(Peek, ReadNextTail(m.next[fb])))  // 332
    case ReadNextTail(nb) =>                                     // 334-338: `localTail` stays as it is
      var b := m.blocks[nb];
      s.(c := if b.front != b.tail then CIdle(Seen(nb, b.front)) else CFault)
    case _ => s.(c := CFault)                                    // peek removes nothing
  }

  /** A step of the consumer's operation. */
  function StepDequeue(s: State): (s': State)
    requires s.c.CBusy? && ConsumerSafe(s.m, s.c.at)
    ensures Fits(s.c.op, s.c.at) ==> s' == StepAny(s)
  {
    match s.c.op
    case TryDequeue => StepTryDequeue(s)
    case Pop => StepPop(s)
    case Peek => StepPeek(s)
  }

  /** The places an operation's steps can lead to. */
  predicate Fits(op: ConsumerOp, at: ConsumerAt) {
    match at
    case Move(_, _) => op == TryDequeue
    case Advance(_, _) => op != Peek
    case Destroy(_, _, moved) => op != Peek && (moved.Some? <==> op == TryDequeue)
    case StoreFront(_, _, _) => op != Peek
    case _ => true
  }

  /** What the three operations do at the label `non_empty_front_block`. */
  function TakeFrom(op: ConsumerOp, b: int, i: nat): Consumer {
    match op
    case Peek => CIdle(Seen(b, i))
    case TryDequeue => CBusy(op, Move(b, i))
    case Pop => CBusy(op, Destroy(b, i, None))
  }

  /** The common form of the three operations, which the proofs are about. */
  function StepAny(s: State): State
    requires s.c.CBusy? && ConsumerSafe(s.m, s.c.at)
  {
    var m, op := s.m, s.c.op;
    match s.c.at
    case CLoad =>
      var b := m.blocks[m.frontBlock];
      if b.front != b.localTail then s.(c := TakeFrom(op, m.frontBlock, b.front))
      else s.(c := CBusy(op, ReadTail(m.frontBlock, b.front)))
    case ReadTail(fb, bf) =>
      var t := m.blocks[fb].tail;
      State(SetBlock(m, fb, m.blocks[fb].(localTail := t)), s.p,
            if bf != t then TakeFrom(op, fb, bf) else CBusy(op, ReadTailBlock(fb)))
    case ReadTailBlock(fb) =>
      if fb != m.tailBlock then s.(c := CBusy(op, Reread)) else s.(c := CIdle(Empty))
    case Reread =>
      var fb := m.frontBlock;
      var b := m.blocks[fb];
      State(SetBlock(m, fb, b.(localTail := b.tail)), s.p,
            if b.front != b.tail then TakeFrom(op, fb, b.front) else CBusy(op, ReadNext(fb)))
    case ReadNext(fb) => s.(c := CBusy(op, ReadNextTail(m.next[fb])))
    case ReadNextTail(nb) =>
      var b := m.blocks[nb];
      if b.front == b.tail then s.(c := CFault)              // the asserts at 272, 337 and 388
      else if op == Peek then s.(c := CIdle(Seen(nb, b.front)))
      else State(SetBlock(m, nb, b.(localTail := b.tail)), s.p, CBusy(op, Advance(nb, b.front)))
    case Advance(nb, nf) =>
      State(m.(frontBlock := nb), s.p, TakeFrom(op, nb, nf))
    case Move(fb, bf) =>
      var slot := m.blocks[fb].slots[bf];
      if !slot.live then s.(c := CFault) else s.(c := CBusy(op, Destroy(fb, bf, Some(slot.val))))
    case Destroy(fb, bf, moved) =>
      var b := m.blocks[fb];
      var slot := b.slots[bf];
      if !slot.live then s.(c := CFault)
      else
        State(SetBlock(m, fb, b.(slots := b.slots[bf := slot.(live := false)])), s.p,
              CBusy(op, StoreFront(fb, bf, if moved.Some? then moved.value else slot.val)))
    case StoreFront(fb, bf, v) =>
      var b := m.blocks[fb];
      State(SetBlock(m, fb, b.(front := MaskInc(bf, |b.slots|))), s.p,
            CIdle(if op == TryDequeue then Taken(v) else Dropped))
  }

  // ---- The machine ----

  /** One step of one thread. An action that does not apply (calling while busy,
      stepping while idle) does nothing; following an invalid pointer faults. */
  function Step(s: State, a: Action): State {
    match a
    case CallEnqueue(v, mode) => if s.p.PIdle? then s.(p := PBusy(v, mode, Load)) else s
    case CallConsumer(op) => if s.c.CIdle? then s.(c := CBusy(op, CLoad)) else s
    case StepProducer(ok, bytes) =>
      if !s.p.PBusy? then s
      else if !ProducerSafe(s.m, s.p.at) then s.(p := PFault)
      else StepEnqueue(s, ok, bytes)
    case StepConsumer =>
      if !s.c.CBusy? then s
      else if !ConsumerSafe(s.m, s.c.at) then s.(c := CFault)
      else StepDequeue(s)
  }

  /** What an observer of the run writes down; the steps never read it.
      - `ring`, `ti`: the blocks in ring order from the front block, and the place
        of the tail block among them;
      - `enqueued`: the arguments of the successful enqueues, each appended at the
        store that publishes it (459, 488 or 515);
      - `removed`: the elements the consumer obtained (or `pop` dropped), each
        appended at its store of `front`;
      - `peak`: the greatest length the queue has had;
      - `lengthSeen`: the length at the producer's last load of `front` at 452;
      - `sawEmpty`: whether the queue was empty at the consumer's last load of
        `tail` at 233;
      - `peeked`: what the last `peek` returned, until the next removal. */
  datatype History = History(
    ring: seq<int>, ti: int,
    enqueued: seq<Elem>, removed: seq<Elem>,
    peak: int, lengthSeen: int, sawEmpty: bool, peeked: Option<(int, nat)>)

  function Length(h: History): int { |h.enqueued| - |h.removed| }

  function Published(h: History, v: Elem): History {
    var h' := h.(enqueued := h.enqueued + [v]);
    h'.(peak := if Length(h') > h.peak then Length(h') else h.peak)
  }

  function NotePeek(h: History, c: Consumer): History {
    if c.CIdle? && c.answer.Seen? then h.(peeked := Some((c.answer.block, c.answer.index))) else h
  }

  function Observe(s: State, h: History, a: Action): History {
    if a.StepProducer? && s.p.PBusy? && ProducerSafe(s.m, s.p.at) then
      match s.p.at
      case ReadFront(_, _, _) => h.(lengthSeen := Length(h))
      case StoreTail(_, _) => Published(h, s.p.v)
      case Splice(_, nb) => if 0 <= h.ti < |h.ring| then h.(ring := Spliced(h.ring, h.ti, nb)) else h
      case StoreTailBlock(_) => Published(h.(ti := h.ti + 1), s.p.v)
      case _ => h
    else if a.StepConsumer? && s.c.CBusy? && ConsumerSafe(s.m, s.c.at) then
      match s.c.at
      case ReadTail(_, _) => NotePeek(h.(sawEmpty := Length(h) == 0), Step(s, a).c)
      case Advance(_, _) => if |h.ring| > 0 then h.(ring := Rotated(h.ring), ti := h.ti - 1) else h
      case StoreFront(_, _, v) => h.(removed := h.removed + [v], peeked := None)
      case _ => NotePeek(h, Step(s, a).c)
    else h
  }

  datatype Config = Config(s: State, h: History)

  function Next(c: Config, a: Action): Config {
    Config(Step(c.s, a), Observe(c.s, c.h, a))
  }

  function InitialConfig(maxSize: nat, maxBlock: nat, bytes: Elem): Config
    requires maxBlock >= 2
  {
    Config(InitialState(maxSize, maxBlock, bytes),
           History(seq(InitialCount(maxSize, maxBlock), i => i), 0, [], [], 0, 0, false, None))
  }

  /** The configuration after the first `n` actions of a schedule: a run. Any
      sequence of calls and steps of the two threads is a schedule. */
  function After(c: Config, schedule: seq<Action>, n: nat): Config
    requires n <= |schedule|
  {
    if n == 0 then c else Next(After(c, schedule, n - 1), schedule[n - 1])
  }
}
