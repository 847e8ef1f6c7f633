# Verified model of the single-producer/single-consumer queue

This project models, in Dafny, the lock-free queue `ReaderWriterQueue`, its blocking variant
`BlockingReaderWriterQueue` and the semaphore `LightweightSemaphore` between them
(`include/readerwriterqueue.h`, `include/atomicops.h`), and proves what they are for: elements come out
once each and in order under every interleaving of one producer and one consumer, "empty" and "full" are
honest answers, no object is constructed over a live one or destroyed twice, the size asked for at
construction is really available, memory stays bounded, and a consumer that holds a permit finds its
element. `dafny verify dfyconfig.toml` checks everything.

## The two levels

**The step machine** (`Spsc`, `SpscInvariant`, `SpscProducer`, `SpscConsumer`, `SpscTheorems`, and on top of
them `SpscCapacity`, `SpscCalls`, `SpscProgress`, `SpscGrowth`, `SpscRest`, `SpscRuns`). The producer runs `inner_enqueue` and the consumer
`try_dequeue`, `pop` or `peek`, each from its own body, one step at a time, in any order.
A step performs at most one load of a variable the other thread writes, or one store to a variable the
other thread reads; loads of a variable by the only thread that writes it are merged into the step that
uses them. A run is an arbitrary sequence of actions: calls, steps of either thread, and what `malloc`
returned. A failed assertion, a construction over a live object, a read or destruction of a dead one, or an
invalid pointer or index puts the thread into a fault state, and the theorems say that no run reaches one.
An observer writes down a history beside the state (elements enqueued and removed, the order of the ring,
the greatest length); the steps never read it. `Fifo`, `RingShape`, `BlocksSound` and `TeardownConserves` are
stated about memory: they walk `next` from `frontBlock`, or range over every block ever made.

**The heap** (`HeapQueue`). Classes with the fields, slot arrays and `next` pointers of the source, one
method per operation, each proved against the sequence of elements in the queue and against the sequences
of elements ever constructed and destroyed in its storage.

Both levels link their pointers to the same pointer-free ring of blocks (`Rings`), a block being a circular
buffer with two shadow indices (`Blocks`), and both rest on the same bit arithmetic (`Words`). `Semaphores`
models the semaphore as a step machine of its own, `Blocking` composes it with the queue's step machine, and
`Layout` covers address arithmetic. `SpscCalls`, `SemaphoreCalls` and `BlockingCalls` follow whole calls, from the
call to its answer, through every run.

## What the proofs found

- `signal(0)` is allowed by the assertion at `include/atomicops.h:641`, but if a waiter is present it posts
  the kernel semaphore without adding a permit. `Semaphores.SignalExact` proves the exact condition under
  which no later run grants a permit too many (the count is at least 1, or nobody waits at the addition), and
  `Semaphores.ZeroSignalGrants` is a concrete run in which a wait returns true though no permit was ever put in.
  The blocking queue only uses a count of 1.
- The remark at `include/readerwriterqueue.h:23` that memory is allocated O(lg n) times does not hold.
  `SpscGrowth.NotLogarithmic` gives, for every MAX_BLOCK_SIZE and every factor, a run of nothing but n = 2^t
  enqueues that allocates more than the factor times t blocks. `SpscGrowth.LogarithmicExactly` gives the exact
  condition for the allocations so far to be logarithmically many: the one before the last left the largest
  block smaller than MAX_BLOCK_SIZE. `SpscGrowth.LinearFrom` says what happens from then on.
- The comment at `include/readerwriterqueue.h:72` says that an additional block has the size of the last one.
  `SpscGrowth.SameSizeExactly` proves that this is so exactly from MAX_BLOCK_SIZE on, and
  `SpscGrowth.SizesDiffer` gives a run for every queue that starts below it.
- `ceilToPow2` wraps to 0 for 0 and above half of the word's range; `Words.CeilToPow2` states this for every
  word width the shift loop handles. So `HeapQueue.ReaderWriterQueue.constructor` makes a valid queue exactly
  if `maxSize + 1` is at most half of the range; beyond that its one block has no slot, and
  `Layout.NoSlotFits` says what the first enqueue would then do.
- The re-check at `include/readerwriterqueue.h:255` is needed: `SpscRuns.RecheckFinds` is a run in which it
  finds an element. Run alone it never does (the heap level proves it).
- The comments at `include/readerwriterqueue.h:629` and `:632` are swapped: elements are dequeued from
  `frontBlock` and enqueued to `tailBlock`. The model follows the code.

## Model

| member | source | states |
|---|---|---|
| SpscTheorems.Fifo | include/readerwriterqueue.h:206-528 | in every reachable configuration, under every interleaving, what was enqueued is what was removed followed by what a walk along `next` from `frontBlock` to `tailBlock` finds; so the removed elements are a prefix, in order, of the enqueued ones |
| SpscTheorems.StepRefines | include/readerwriterqueue.h:206-528 | every step refines an abstract FIFO queue: an enqueue appends its element at the store of `tail` or `tailBlock` and then answers true, a dequeue takes the head at its store of `front`, and every other step, such as advancing `frontBlock` or splicing a block, leaves the queue alone |
| SpscTheorems.NeverFaults | include/readerwriterqueue.h:206-528 | the assertions at 272, 337, 388, 479 and 502 never fail; no construction hits a live slot, no read or destruction a dead one; no invalid pointer or index is followed |
| SpscTheorems.RingShape | include/readerwriterqueue.h:247-515 | `next` runs from `frontBlock` through distinct blocks and back; `tailBlock` is on the way; blocks strictly between are full, a tail block other than the front block is not empty, and all blocks past it are empty except one about to become the tail block; no block is outside the ring but one just made |
| SpscTheorems.BlocksSound | include/readerwriterqueue.h:580-602 | every block ever made keeps sound shadow indices and a power-of-two size between the first block's and twice MAX_BLOCK_SIZE; its live slots are exactly those between `front` and `tail`, apart from the producer's and the consumer's publication windows |
| SpscTheorems.HonestEmptiness | include/readerwriterqueue.h:219-294 | in every run, an answer "empty" of `try_dequeue`, `pop` or `peek` means that the whole queue was empty when that same call loaded `tail` at 233 (316, 358), whatever the producer did before `tailBlock` was loaded |
| SpscCapacity.CapacityGuarantee | include/readerwriterqueue.h:447-525 | in every run, a refusal by `try_enqueue`, an `enqueue` failing for lack of memory, or `enqueue` standing before its allocation, means that this same call loaded `front` at 452 with at least `maxSize` elements held and then, at 463, found no block free |
| SpscCapacity.OutOfMemoryExactly | include/readerwriterqueue.h:490-497 | in every run, an `enqueue` that fails for lack of memory has just asked `make_block` for a block in vain |
| SpscCalls.EnqueueAnswers | include/readerwriterqueue.h:168-199 | every call of `enqueue(v)` or `try_enqueue(v)`, in every run, from call to answer: true if and only if exactly `v` was appended; `try_enqueue` makes no block, `enqueue` at most one and none if it fails; a failure means no room and no free block, found during this call, and for `enqueue` a failed allocation |
| SpscCalls.DequeueAnswers | include/readerwriterqueue.h:202-410 | every call of `try_dequeue`, `pop` or `peek`, in every run, from call to answer: `try_dequeue` answers with an element exactly if it removed just that one, `pop` answers true exactly if it removed one, `peek` removes nothing; "empty" means that nothing was removed and that the queue was empty at this call's load of `tail` |
| SpscTheorems.MemoryBound | include/readerwriterqueue.h:490-515 | if the queue never holds more than N elements, its blocks never have room for more than the larger of the initial room and N + 2 * (2 * MAX_BLOCK_SIZE - 1) |
| SpscTheorems.PeekCoherent | include/readerwriterqueue.h:300-342 | until the next removal, what `peek` returned is the live head of the queue; the consumer's next removal works on that very slot and cannot answer "empty" |
| SpscTheorems.PeekThenRemove | include/readerwriterqueue.h:300-342 | after a `peek` that found an element and any further run, the first element removed is the one in the slot it returned, and no operation answers "empty" before that |
| SpscTheorems.PopDropsResult | include/readerwriterqueue.h:347-410 | `pop`, modelled from its own body, does step by step to memory what `try_dequeue` does from its body, less the move out of the element, which changes nothing; the two run through the same places in the same order |
| Spsc.StepDequeue | include/readerwriterqueue.h:206-410 | the bodies of `try_dequeue`, `pop` and `peek`, written out one by one, have one common form; the proofs about the consumer are about that form |
| SpscProgress.EnqueueWaitFree | include/readerwriterqueue.h:20-22 | however the consumer is scheduled, every `enqueue` and `try_enqueue` has answered after at most 8 of the producer's steps, allocation counted as one |
| SpscProgress.DequeueWaitFree | include/readerwriterqueue.h:20-22 | however the producer is scheduled, every `try_dequeue`, `pop` and `peek` has answered after at most 10 of the consumer's steps |
| SpscProgress.Fill | include/readerwriterqueue.h:185-199 | for every number there is a run of that many successful `enqueue`s and nothing else |
| SpscGrowth.GrowthExact | include/readerwriterqueue.h:492-498 | in every reachable configuration the largest block is the first size grown by line 492 once per allocation, and the room is that of the first blocks and of all the grown ones |
| SpscGrowth.DoublesExactly | include/readerwriterqueue.h:492 | after `a` allocations the size is the first one times 2^a if and only if `a` is 0 or the first size times 2^(a-1) is below MAX_BLOCK_SIZE |
| SpscGrowth.LogarithmicExactly | include/readerwriterqueue.h:21-24 | under exactly that condition all allocations so far have doubled the largest block, and then 2^a is at most the room |
| SpscGrowth.LinearFrom | include/readerwriterqueue.h:492 | once the largest block has reached MAX_BLOCK_SIZE, every further allocation adds the same room |
| SpscGrowth.AtLeastLinear | include/readerwriterqueue.h:21-24 | in every reachable configuration the elements held are at most the initial room plus (2 * MAX_BLOCK_SIZE - 1) per allocation |
| SpscGrowth.NotLogarithmic | include/readerwriterqueue.h:21-24 | for every MAX_BLOCK_SIZE, `maxSize` and factor, a run of 2^t enqueues and no dequeue with more than factor * t allocations: the documented O(lg n) does not hold |
| SpscGrowth.SameSizeExactly | include/readerwriterqueue.h:72-73 | a new block has the size of the largest before it if and only if that has reached MAX_BLOCK_SIZE |
| SpscGrowth.SizesDiffer | include/readerwriterqueue.h:72-73 | if the first blocks are smaller than MAX_BLOCK_SIZE, some run makes a block of at least twice their size |
| SpscRest.TeardownConserves | include/readerwriterqueue.h:141-165 | after any concurrent run, with no operation in progress, the destructor's walk meets exactly the elements enqueued and not removed, in order, and the slots it destroys are exactly the live ones of all blocks ever made |
| SpscRest.SizeAtRest | include/readerwriterqueue.h:414-427 | after any concurrent run, with no operation in progress, `size_approx` computes the length of the queue in a word of any sufficient width |
| SpscRuns.RecheckFinds | include/readerwriterqueue.h:247-258 | a run in which the re-read of `tail` after `frontBlock_ != tailBlock` finds an element in the front block |
| SpscTheorems.InitialBlocks | include/readerwriterqueue.h:92-133 | for every `maxSize` and MAX_BLOCK_SIZE the initial state has exactly the blocks promised: if the least power of two that is at least `maxSize + 1` exceeds twice MAX_BLOCK_SIZE, ceil(maxSize / (MAX_BLOCK_SIZE - 1)) + 1 blocks of MAX_BLOCK_SIZE slots, otherwise one block of that size; all empty |
| SpscTheorems.PromiseIsExact | include/readerwriterqueue.h:94-99 | that promise fixes the number of blocks and their size |
| SpscTheorems.InitialInv | include/readerwriterqueue.h:80-137 | the constructor's result satisfies the whole invariant and is empty |
| SpscTheorems.RunKeeps | include/readerwriterqueue.h:206-528 | every prefix of every run keeps the whole invariant |
| SpscProducer.ProducerStepCorrect | include/readerwriterqueue.h:433-528 | each step of `inner_enqueue` keeps the invariant, answers true exactly when it publishes, fails under `CanAlloc` only at the allocation, for want of memory and with at least `maxSize` elements seen, and never shrinks `largestBlockSize` |
| SpscProducer.ProducerIsSafe | include/readerwriterqueue.h:447-515 | each step of the producer uses only valid blocks and slot indices |
| SpscConsumer.ConsumerStepCorrect | include/readerwriterqueue.h:206-410 | each step of the consumer keeps the invariant and removes the head exactly when it answers with that element or pops it |
| SpscConsumer.ConsumerIsSafe | include/readerwriterqueue.h:229-289 | each step of the consumer uses only valid blocks and slot indices |
| SpscConsumer.FrontIsHead | include/readerwriterqueue.h:229-239 | a non-empty front block holds the head of the queue at `front`; the queue is empty exactly if the front block is empty and is the tail block |
| SpscConsumer.NextIsHead | include/readerwriterqueue.h:260-272 | when the front block is exhausted and is not the tail block, the next block is not empty and holds the head of the queue |
| Rings.NoFreeBlock | include/readerwriterqueue.h:94-99 | a full tail block with no free block after it means at least `maxSize` elements, and all the room but at most one block's is in use |
| Rings.QueueHead | include/readerwriterqueue.h:229-247 | the front block decides what the head is and, with `tailBlock`, whether the queue is empty |
| Rings.QueueIsWholeRing | include/readerwriterqueue.h:149-164 | with no enqueue in progress, the blocks of the whole ring, from the front block on, hold the queue in order |
| Rings.ConstructInTailStep | include/readerwriterqueue.h:455-456 | construction is in a dead slot and publishes nothing |
| Rings.PublishTailStep | include/readerwriterqueue.h:459 | the store of `tail` appends the constructed element |
| Rings.ConstructInNextStep | include/readerwriterqueue.h:482-483 | construction in the free block is in a dead slot and publishes nothing |
| Rings.PublishNextStep | include/readerwriterqueue.h:485 | the store of `tail` of the free block publishes nothing yet |
| Rings.AdvanceTailStep | include/readerwriterqueue.h:487-515 | the store of `tailBlock` appends the waiting element |
| Rings.SpliceStep | include/readerwriterqueue.h:505-506 | splicing a new block in leaves the queue alone |
| Rings.DestroyStep | include/readerwriterqueue.h:238-240 | the slot at `front` is alive and holds the head; destroying it leaves the queue alone |
| Rings.RemoveStep | include/readerwriterqueue.h:242-245 | the store of `front` removes exactly the head |
| Rings.AdvanceFrontStep | include/readerwriterqueue.h:275-277 | leaving an exhausted front block leaves the queue alone and leads to a non-empty block |
| Rings.ShadowStep | include/readerwriterqueue.h:233 | refreshing a shadow index changes neither the ring's invariant nor the queue |
| Blocks.ShadowTestsExact | include/readerwriterqueue.h:448-452 | undisturbed, the two-part tests at 233 and 452 with their stale indices decide exactly "not empty" and "not full" |
| Blocks.TailStoreAppends | include/readerwriterqueue.h:458-459 | storing `tail` keeps both shadow indices sound and appends the constructed element to the block |
| Blocks.FrontStoreDrops | include/readerwriterqueue.h:242-245 | storing `front` keeps both shadow indices sound and drops the block's first element |
| Semaphores.Conservation | include/atomicops.h:569-648 | in every run in which no addition of 0 meets a waiter: permits put in = permits granted + counter + (1 while a waiter's decrement is outstanding); the counter never drops below -1, so the assertion at 643 holds; at most one kernel post exists or is under way |
| Semaphores.WaitsAreExact | include/atomicops.h:569-610 | in every such run, between waits, whatever races there were with timeouts, the counter is exactly the permits not granted and no kernel post is left behind |
| Semaphores.RefusedWhenNoneLeft | include/atomicops.h:600-626 | in every such run, a wait returns false only if it is timed or `tryWait`, at a moment when every permit has been granted |
| Semaphores.NoLostWakeup | include/atomicops.h:585-594 | in every such run, a blocked waiter without a post there or under way means that every permit has been granted, and conversely |
| Semaphores.FailedPassMeansPostPending | include/atomicops.h:600-609 | in every such run, a pass of the retry loop fails only while the signaller is between 642 and 646 |
| Semaphores.RetryExits | include/atomicops.h:600-609 | in every such run, a pass that begins after the post succeeds within its three steps, whatever the signaller does |
| SemaphoreCalls.WaitAnswers | include/atomicops.h:569-637 | every `tryWait` and `wait`, in every such run, from call to answer: true exactly if it took one permit; false without taking any, at a moment when every permit had been granted, never from an untimed wait, and from a timed wait only after its kernel wait timed out |
| SemaphoreCalls.SignalAnswers | include/atomicops.h:639-648 | every `signal(n)`, in every such run, has added exactly n permits when it returns |
| SemaphoreCalls.WaitEnds | include/atomicops.h:569-610 | every wait ends within a number of the waiter's steps given by its spins, unless the kernel makes it wait or a pass of the retry loop comes between a signaller's addition and its post; in particular a timed wait that times out answers |
| SemaphoreCalls.TimedWaitEnds | include/atomicops.h:593-609 | a timed wait always ends when its time is up, whether a permit comes or not, within its steps, unless a pass of the retry loop comes between a signaller's addition and its post |
| SemaphoreCalls.PermitWakes | include/atomicops.h:585-594 | if a permit is there and no post is under way, a waiter blocked on the kernel gets it at its next step |
| Semaphores.SignalExact | include/atomicops.h:639-648 | no run after the addition grants more permits than were put in, if and only if the count added is at least 1 or nobody waits; so the condition on the runs above cannot be weakened |
| Semaphores.AddingIsSafe | include/atomicops.h:639-648 | every run in which all calls of `signal` have a count of at least 1, the default, is one of those runs |
| Semaphores.ZeroSignalGrants | include/atomicops.h:639-648 | a run in which `signal(0)` makes a wait return true though no permit was put in |
| Blocking.PermitGuaranteesElement | include/readerwriterqueue.h:658-791 | in every interleaving enqueued >= signalled >= granted >= removed; a consumer with a permit finds the inner queue not empty, and no `assert(success)` or `assert(result)` fails |
| Blocking.RefusalMeansEmpty | include/readerwriterqueue.h:709-790 | a blocking-queue dequeue answers `false` only when the inner queue holds nothing but, perhaps, the one element whose permit is not added yet; `wait_dequeue`, and `wait_dequeue_timed` with a negative timeout, never do |
| BlockingCalls.EnqueueAnswers | include/readerwriterqueue.h:655-702 | every call of `enqueue(v)` or `try_enqueue(v)` of the blocking queue, in every run, from call to answer: true if and only if exactly `v` was appended, and then exactly one permit was added; otherwise neither, and then the inner queue had no room, no free block and, for `enqueue`, no memory |
| BlockingCalls.DequeueAnswers | include/readerwriterqueue.h:705-791 | every dequeue, `pop` and `peek` of the blocking queue, in every run, from call to answer: the answer says exactly what was removed and each removal used one permit; a `false` comes only with the queue empty but for an element without its permit, and from a timed dequeue only after its kernel wait timed out; a null from `peek` means the inner queue was empty at its load of `tail` |
| BlockingCalls.WaitDequeueDelivers | include/readerwriterqueue.h:721-731 | a `wait_dequeue` that has answered has delivered the one element it removed |
| BlockingCalls.InnerReachable | include/readerwriterqueue.h:806-808 | the queue inside the blocking queue is in a reachable configuration of its own, so every result above holds of it |
| BlockingCalls.EnqueueEnds | include/readerwriterqueue.h:655-702 | every enqueue of the blocking queue answers within 10 steps of its producer, however the consumer is scheduled |
| BlockingCalls.TryDequeueEnds | include/readerwriterqueue.h:705-791 | every `try_dequeue`, `pop` and `peek` of the blocking queue answers within 12 steps of its consumer, whatever the producer and the kernel do |
| BlockingCalls.DequeueEnds | include/readerwriterqueue.h:721-751 | every dequeue of the blocking queue ends as long as the kernel does not make it wait: its waits find a post or time out, and no pass of the retry loop comes between a signaller's addition and its post |
| BlockingCalls.TimedDequeueEnds | include/readerwriterqueue.h:734-751 | a `wait_dequeue_timed` always ends when its time is up, whether an element comes or not, under the same proviso |
| Blocking.BlockingPeek | include/readerwriterqueue.h:768-791 | after a non-null `peek` of the blocking queue and any further run, the first element removed is the one seen, and before that a dequeue answers `false` only while the element's producer has not added its permit |
| Blocking.BlockingFifo | include/readerwriterqueue.h:658-790 | the blocking queue keeps FIFO order, and its counter never exceeds the queue's length |
| Blocking.SizeExact | include/readerwriterqueue.h:795-798 | in every reachable state, operations in progress or not, the length of the inner queue exceeds the semaphore-based size by exactly one for each of: an element published without its permit, a permit granted whose element is still there, a waiter off the counter with a permit on its way |
| Blocking.SizeAgrees | include/readerwriterqueue.h:795-798 | with no operation in progress the semaphore-based size is the length of the inner queue |
| HeapQueue.BuildRing | include/readerwriterqueue.h:102-119 | the constructor's loop ends with exactly the number of blocks asked for, all empty, in one cycle |
| HeapQueue.ReaderWriterQueue.constructor | include/readerwriterqueue.h:80-137 | for every positive 64-bit `maxSize`: a valid queue if and only if `maxSize + 1` is at most half the word's range, and then empty, of exactly as many blocks, of the size, that the documentation promises (`Promised`, not the formula); otherwise one block without slots |
| HeapQueue.ReaderWriterQueue.InnerEnqueue | include/readerwriterqueue.h:433-528 | appends the element exactly if there is room or a block may be and can be made; otherwise changes nothing in the queue, and then at least `maxSize` elements are held; a new block appears only if there was no room, after the tail block, of the largest size, which that step doubles below MAX_BLOCK_SIZE and otherwise keeps |
| HeapQueue.ReaderWriterQueue.TryDequeue | include/readerwriterqueue.h:206-297 | returns and destroys the head of the queue, or nothing if and only if it is empty; the blocks stay |
| HeapQueue.ReaderWriterQueue.Pop | include/readerwriterqueue.h:347-410 | the same effect as `TryDequeue`, and whether there was an element |
| HeapQueue.ReaderWriterQueue.Peek | include/readerwriterqueue.h:305-342 | null exactly if the queue is empty, otherwise the live slot of the head; the queue is unchanged |
| HeapQueue.ReaderWriterQueue.LocateFront | include/readerwriterqueue.h:229-277 | finds the block and index of the head without changing the queue |
| HeapQueue.ReaderWriterQueue.ProbeFront | include/readerwriterqueue.h:229-233 | the two-part test with the stale `localTail` decides whether the front block is empty |
| HeapQueue.ReaderWriterQueue.ProbeNext | include/readerwriterqueue.h:261-272 | the block after an exhausted front block is not empty (the assertion holds) |
| HeapQueue.ReaderWriterQueue.DropFront | include/readerwriterqueue.h:238-245 | destroys exactly the live head of the queue |
| HeapQueue.ReaderWriterQueue.AdvanceFront | include/readerwriterqueue.h:275-277 | turns the ring by one block without changing the queue |
| HeapQueue.ReaderWriterQueue.ProbeTail | include/readerwriterqueue.h:447-452 | the two-part test with the stale `localFront` decides whether the tail block is full |
| HeapQueue.ReaderWriterQueue.EnqueueHere | include/readerwriterqueue.h:453-459 | constructs in a dead slot of the tail block and appends |
| HeapQueue.ReaderWriterQueue.ProbeNextFree | include/readerwriterqueue.h:472-480 | the block after the tail block is empty (the assertion holds) |
| HeapQueue.ReaderWriterQueue.EnqueueNext | include/readerwriterqueue.h:482-488 | constructs in a dead slot of the free block, makes it the tail block and appends |
| HeapQueue.ReaderWriterQueue.EnqueueNew | include/readerwriterqueue.h:492-515 | splices one new block of the grown size in behind the tail block, leaves every other link alone, and appends |
| HeapQueue.ReaderWriterQueue.SpliceIn | include/readerwriterqueue.h:505-515 | the splice yields one cycle with exactly one more block |
| HeapQueue.ReaderWriterQueue.FullQueue | include/readerwriterqueue.h:94-99 | no room means that at least `maxSize` elements are held |
| HeapQueue.ReaderWriterQueue.SizeApprox | include/readerwriterqueue.h:414-427 | run alone, the walk ends and the wrapped sum of masked differences is the queue's length in a 64-bit word |
| HeapQueue.ReaderWriterQueue.Destroy | include/readerwriterqueue.h:141-165 | the walk ends, frees every block once and destroys exactly the remaining elements, oldest first; then every element ever constructed in the storage has been destroyed, in the same order |
| HeapQueue.Block.DestroyAll | include/readerwriterqueue.h:151-158 | destroys the block's elements in order, each a live one, and leaves no live slot |
| HeapQueue.Block.Append | include/readerwriterqueue.h:453-459 | given room by the shadow index, the slot used held no object, and the element is added behind the block's contents |
| HeapQueue.Block.Drop | include/readerwriterqueue.h:238-245 | given an element by the shadow index, the slot used held the block's first element alive, and the contents lose just that |
| HeapQueue.Block.constructor | include/readerwriterqueue.h:599-602 | an empty block of raw storage, linked to nothing |
| Blocks.MaskedCountExact | include/readerwriterqueue.h:421-423 | the wrapped and masked difference of a block's indices is the number of its elements, in every word its size fits in |
| Words.CeilToPow2 | include/readerwriterqueue.h:539-551 | for every word width: the least power of two that is at least the argument, up to half the range; 0 for 0 and beyond |
| Words.SmearRight | include/readerwriterqueue.h:543-548 | after the shifts and the loop, the word is the OR of all its right shifts |
| HeapQueue.CeilAgrees | include/readerwriterqueue.h:92 | the machine computation and the number used by the step machine's constructor are the same |
| Words.MaskIncIsInc | include/readerwriterqueue.h:451 | for a power-of-two size, adding 1 and masking steps to the next index of the circle |
| Words.WrappedDistance | include/readerwriterqueue.h:423 | wrapped unsigned subtraction, masked, is the distance round the circle |
| Layout.AlignForLeast | include/readerwriterqueue.h:553-558 | the least aligned address not below the pointer |
| Layout.BlockFits | include/readerwriterqueue.h:613-626 | for every raw address, size, alignment and capacity, header and data are aligned, disjoint and inside the memory asked for, of which no more than the alignment padding is left over |
| Layout.SlotsFit | include/readerwriterqueue.h:613-626 | so is every slot, and no two overlap |
| Layout.NoSlotFits | include/readerwriterqueue.h:447-456 | in a block made for no elements the test at 452 nevertheless finds room, and an element larger than the alignment padding does not fit in the memory asked for |

## Left out

- Weak memory: steps are atomic and sequentially consistent; `fence`, `compiler_fence`, `weak_atomic`'s orderings, platform detection and cache-line padding are not modelled.
- Form: the parts that run concurrently are modelled as step functions on values, since a method call cannot be interleaved; the heap classes model the same operations undisturbed.
- Spsc.Step: loads of a variable by the only thread that writes it are merged with the step that uses them, which no other thread can notice.
- The operating system's semaphores and their clocks: an atomic counting primitive whose timed wait may give up at any time stands for them.
- The spin count: a wait spins any finite number of times, chosen by the environment; that the spin loop ends early or late changes no property.
- Semaphores.Initial: the counter is unbounded; overflow of `ssize_t` is not modelled.
- SpscTheorems.InitialInv: sizes are unbounded there; HeapQueue.CeilAgrees ties them to the 64-bit computation where that does not wrap.
- HeapQueue.ReaderWriterQueue.constructor: a failing `malloc` in the constructor, which throws or aborts, is not modelled; neither is a MAX_BLOCK_SIZE above 2^62, with which the arithmetic at 93 and 99 can overflow.
- HeapQueue.ReaderWriterQueue.SizeApprox: not modelled while operations are in progress; its result is then only an approximation.
- HeapQueue.ReaderWriterQueue.Destroy: the list of freed blocks is recorded, the memory itself is not reclaimed; the source forbids running it concurrently.
- Layout.BlockFits: the size computation is taken not to overflow.
- Copy, move and destruction of elements: what the element type's own operations do or throw, the reentrancy guards against calling the queue from them, and the overloads for copying and moving.
- The `std::chrono` overload of `wait_dequeue_timed`: a conversion of units before the modelled call.
- `include/queue.hh`, `include/bounded_buffer.hh`, `include/SynchronisedQueue.hh`: thin wrappers over library containers that would add only easy members.
- `include/server.hh`, `include/decoder.hh`, `src/*.cxx`, `makefile`: sockets, threads, printing and build rules around the queue.
