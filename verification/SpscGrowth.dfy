/** How often the queue allocates. While the largest block is smaller than
    MAX_BLOCK_SIZE each allocation doubles it; from then on each adds one more block
    of the same size, so that the number of allocations grows linearly with the
    number of elements held, not logarithmically. */
module SpscGrowth {
  import opened Elements
  import opened Words
  import opened Blocks
  import opened Rings
  import opened Spsc
  import opened SpscInvariant
  import opened SpscProducer
  import opened SpscTheorems
  import opened SpscCapacity
  import opened SpscProgress

  /** The largest block size after `a` allocations. */
  function Grown(size: nat, maxBlock: nat, a: nat): nat {
    if a == 0 then size else GrownSize(Grown(size, maxBlock, a - 1), maxBlock)
  }

  /** The room that `a` allocations add. */
  function RoomMade(size: nat, maxBlock: nat, a: nat): int {
    if a == 0 then 0 else RoomMade(size, maxBlock, a - 1) + Grown(size, maxBlock, a) - 1
  }

  /** The number of allocations made since construction. */
  function Allocations(c: Config, maxSize: nat, maxBlock: nat): int
    requires maxBlock >= 2
  {
    |c.s.m.blocks| - InitialCount(maxSize, maxBlock)
  }

  // ---- What the allocations so far have done ----

  /** `count` blocks of `size` slots were there first; the others were made since. */
  ghost predicate GrownFrom(m: Memory, size: nat, count: nat) {
    var a := |m.blocks| - count;
    && a >= 0
    && m.largest == Grown(size, m.maxBlock, a)
    && Usable(m.blocks) == count * (size - 1) + RoomMade(size, m.maxBlock, a)
  }

  lemma SameSizes(m: Memory, m': Memory, size: nat, count: nat)
    requires GrownFrom(m, size, count)
    requires SizesKept(m, m')
    ensures GrownFrom(m', size, count)
  {
    UsableSame(m.blocks, m'.blocks);
  }

  lemma OneMade(m: Memory, m': Memory, size: nat, count: nat, b: Block)
    requires GrownFrom(m, size, count)
    requires m'.blocks == m.blocks + [b] && m'.maxBlock == m.maxBlock
    requires m'.largest == |b.slots| == GrownSize(m.largest, m.maxBlock)
    ensures GrownFrom(m', size, count)
  {
    hide GrownSize;
    UsablePlus(m.blocks, [b]);
    assert Usable([b]) == Capacity(b);
  }

  predicate SizesKept(m: Memory, m': Memory) {
    && m'.maxBlock == m.maxBlock && m'.largest == m.largest && |m'.blocks| == |m.blocks|
    && forall b :: 0 <= b < |m.blocks| ==> |m'.blocks[b].slots| == |m.blocks[b].slots|
  }

  /** A step keeps every block's size, or makes one block of the size of line 492. */
  lemma SizesStep(c: Config, a: Action)
    ensures var m, m' := c.s.m, Next(c, a).s.m;
      if a.StepProducer? && a.mallocOk && AboutToAllocate(c) && |m.next| == |m.blocks|
      then
        && m'.maxBlock == m.maxBlock
        && m'.blocks == m.blocks + [EmptyBlock(GrownSize(m.largest, m.maxBlock), a.bytes)]
        && m'.largest == GrownSize(m.largest, m.maxBlock)
      else SizesKept(m, m')
  {
    hide StepEnqueue, StepDequeue, ProducerSafe, ConsumerSafe, SizesKept, EmptyBlock, GrownSize, Observe;
    Kept(c.s.m);
    if a.StepProducer? && c.s.p.PBusy? && ProducerSafe(c.s.m, c.s.p.at) {
      ProducerSizes(c.s, a.mallocOk, a.bytes);
    } else if a.StepConsumer? && c.s.c.CBusy? && ConsumerSafe(c.s.m, c.s.c.at) {
      ConsumerSizes(c.s);
    } else if a.StepProducer? && AboutToAllocate(c) {
      MallocSafe(c.s);
    }
  }

  lemma Kept(m: Memory)
    ensures SizesKept(m, m)
  {
  }

  lemma MallocSafe(s: State)
    requires s.p.PBusy? && s.p.at.Malloc?
    ensures ProducerSafe(s.m, s.p.at) <==> |s.m.next| == |s.m.blocks|
  {
  }

  lemma ProducerSizes(s: State, ok: bool, bytes: Elem)
    requires s.p.PBusy? && ProducerSafe(s.m, s.p.at)
    ensures var m, m' := s.m, StepEnqueue(s, ok, bytes).m;
      if ok && s.p.at.Malloc?
      then
        && m'.maxBlock == m.maxBlock && |m.next| == |m.blocks|
        && m'.blocks == m.blocks + [EmptyBlock(GrownSize(m.largest, m.maxBlock), bytes)]
        && m'.largest == GrownSize(m.largest, m.maxBlock)
      else SizesKept(m, m')
  {
    hide MaskInc, EmptyBlock, GrownSize;
  }

  lemma ConsumerSizes(s: State)
    requires s.c.CBusy? && ConsumerSafe(s.m, s.c.at)
    ensures SizesKept(s.m, StepDequeue(s).m)
  {
    hide MaskInc, StepAny;
  }

  lemma {:induction false} GrownRun(c: Config, schedule: seq<Action>, n: nat, size: nat, count: nat)
    requires GrownFrom(c.s.m, size, count) && n <= |schedule|
    ensures GrownFrom(After(c, schedule, n).s.m, size, count)
  {
    hide Next, GrownFrom, AboutToAllocate, GrownSize, SizesKept;
    if n > 0 {
      GrownRun(c, schedule, n - 1, size, count);
      var before, a := After(c, schedule, n - 1), schedule[n - 1];
      SizesStep(before, a);
      var m, m' := before.s.m, Next(before, a).s.m;
      if a.StepProducer? && a.mallocOk && AboutToAllocate(before) && |m.next| == |m.blocks| {
        OneMade(m, m', size, count, EmptyBlock(GrownSize(m.largest, m.maxBlock), a.bytes));
      } else {
        SameSizes(m, m', size, count);
      }
    }
  }

  lemma {:induction false} UsableEqual(vs: seq<Block>, b: Block)
    requires forall i :: 0 <= i < |vs| ==> vs[i] == b
    ensures Usable(vs) == |vs| * Capacity(b)
  {
    if vs != [] {
      UsableEqual(vs[1..], b);
      assert |vs| * Capacity(b) == (|vs| - 1) * Capacity(b) + Capacity(b);
    }
  }

  lemma GrownAtStart(maxSize: nat, maxBlock: nat, bytes: Elem)
    requires maxBlock >= 2 && maxSize >= 1 && IsPow2(maxBlock)
    ensures GrownFrom(InitialConfig(maxSize, maxBlock, bytes).s.m,
                      InitialSize(maxSize, maxBlock), InitialCount(maxSize, maxBlock))
  {
    InitialSizes(maxSize, maxBlock);
    hide InitialSize, InitialCount, IsPow2;
    var size := InitialSize(maxSize, maxBlock);
    UsableEqual(InitialConfig(maxSize, maxBlock, bytes).s.m.blocks, EmptyBlock(size, bytes));
  }

  /** In every reachable configuration, with `a` allocations made: the largest block
      is the first one grown `a` times by line 492, and the room is that of the
      first blocks and of the `a` made since. */
  lemma GrowthExact(c: Config, maxSize: nat, maxBlock: nat)
    requires Reachable(c, maxSize, maxBlock)
    ensures var a, size := Allocations(c, maxSize, maxBlock), InitialSize(maxSize, maxBlock);
      && a >= 0 && c.s.m.largest == Grown(size, maxBlock, a)
      && Usable(c.s.m.blocks)
           == InitialCount(maxSize, maxBlock) * (size - 1) + RoomMade(size, maxBlock, a)
  {
    hide InitialConfig, InitialSize, InitialCount, Next, After, Usable, RoomMade, Grown;
    var bytes: Elem, schedule: seq<Action> :|
      c == After(InitialConfig(maxSize, maxBlock, bytes), schedule, |schedule|);
    var c0 := InitialConfig(maxSize, maxBlock, bytes);
    GrownAtStart(maxSize, maxBlock, bytes);
    InitialIdle(maxSize, maxBlock, bytes);
    MaxBlockFixed(c0, schedule, |schedule|);
    GrownRun(c0, schedule, |schedule|, InitialSize(maxSize, maxBlock), InitialCount(maxSize, maxBlock));
  }

  // ---- Doubling, and no longer doubling ----

  /** `size` doubled `a` times. */
  function Doubled(size: nat, a: nat): nat {
    if a == 0 then size else 2 * Doubled(size, a - 1)
  }

  lemma {:induction false} DoubledIs(size: nat, a: nat)
    ensures Doubled(size, a) == size * Pow2(a)
  {
    if a > 0 {
      DoubledIs(size, a - 1);
      var p := Pow2(a - 1);
      assert size * (2 * p) == 2 * (size * p);
    }
  }

  lemma {:induction false} GrownBounds(size: nat, maxBlock: nat, a: nat)
    requires size >= 2
    ensures 2 <= Grown(size, maxBlock, a) <= Doubled(size, a)
    ensures Grown(size, maxBlock, a) < maxBlock ==> Grown(size, maxBlock, a) == Doubled(size, a)
    ensures Doubled(size, a) < maxBlock ==> Grown(size, maxBlock, a) == Doubled(size, a)
  {
    if a > 0 { GrownBounds(size, maxBlock, a - 1); }
  }

  /** All `a` allocations so far were doublings, so that `a` is the logarithm of the
      largest block over the first, exactly if the one before the last still left
      the largest block smaller than MAX_BLOCK_SIZE. */
  lemma DoublesExactly(size: nat, maxBlock: nat, a: nat)
    requires size >= 2
    ensures Grown(size, maxBlock, a) == size * Pow2(a) <==> a == 0 || size * Pow2(a - 1) < maxBlock
  {
    hide Pow2;
    DoubledIs(size, a);
    if a > 0 {
      DoubledIs(size, a - 1);
      GrownBounds(size, maxBlock, a - 1);
    }
  }

  /** Once the largest block has reached MAX_BLOCK_SIZE, after `s` allocations, every
      further one adds the same room. */
  lemma {:induction false} LinearFrom(size: nat, maxBlock: nat, s: nat, a: nat)
    requires s <= a && Grown(size, maxBlock, s) >= maxBlock
    ensures Grown(size, maxBlock, a) == Grown(size, maxBlock, s)
    ensures RoomMade(size, maxBlock, a)
      == RoomMade(size, maxBlock, s) + (a - s) * (Grown(size, maxBlock, s) - 1)
    decreases a
  {
    if s < a {
      LinearFrom(size, maxBlock, s, a - 1);
      var step := Grown(size, maxBlock, s) - 1;
      assert (a - s) * step == (a - 1 - s) * step + step;
    }
  }

  /** While all allocations have doubled the largest block, there are logarithmically
      many: 2 to their number is at most the room there is; and that is so exactly
      as long as the condition holds. */
  lemma LogarithmicExactly(c: Config, maxSize: nat, maxBlock: nat)
    requires Reachable(c, maxSize, maxBlock)
    ensures var a, size := Allocations(c, maxSize, maxBlock), InitialSize(maxSize, maxBlock);
      && a >= 0 && (c.s.m.largest == size * Pow2(a) <==> a == 0 || size * Pow2(a - 1) < maxBlock)
      && (c.s.m.largest == size * Pow2(a) ==> Pow2(a) <= Usable(c.s.m.blocks))
  {
    hide InitialSize, InitialCount, Usable, Reachable, RoomMade, Grown, Inv, Pow2;
    SizeAtLeastTwo(c, maxSize, maxBlock);
    GrowthExact(c, maxSize, maxBlock);
    var a, size := Allocations(c, maxSize, maxBlock), InitialSize(maxSize, maxBlock);
    DoublesExactly(size, maxBlock, a);
    RoomCovers(size, maxBlock, a);
    AtLeast(InitialCount(maxSize, maxBlock), size, Pow2(a));
  }

  lemma AtLeast(count: nat, size: nat, p: nat)
    requires count >= 1 && size >= 2 && p >= 1
    ensures count * (size - 1) >= size - 1 && size * p - 1 >= p
  {
    assert (count - 1) * (size - 1) >= 0;
    assert (size - 2) * p >= 0;
  }

  lemma SizeAtLeastTwo(c: Config, maxSize: nat, maxBlock: nat)
    requires Reachable(c, maxSize, maxBlock)
    ensures maxBlock >= 2 && InitialSize(maxSize, maxBlock) >= 2 && InitialCount(maxSize, maxBlock) >= 1
  {
    InitialSizes(maxSize, maxBlock);
  }

  lemma {:induction false} RoomCovers(size: nat, maxBlock: nat, a: nat)
    requires size >= 2
    ensures RoomMade(size, maxBlock, a) >= 0
    ensures size - 1 + RoomMade(size, maxBlock, a) >= Grown(size, maxBlock, a) - 1
  {
    GrownBounds(size, maxBlock, a);
    if a > 0 { RoomCovers(size, maxBlock, a - 1); }
  }

  /** A new block has the size of the largest one before it, as the comment at 72
      has it, exactly if that has reached MAX_BLOCK_SIZE. */
  lemma SameSizeExactly(c: Config, a: Action, maxSize: nat, maxBlock: nat)
    requires Reachable(c, maxSize, maxBlock) && |Next(c, a).s.m.blocks| > |c.s.m.blocks|
    ensures |Next(c, a).s.m.blocks[|c.s.m.blocks|].slots| == c.s.m.largest <==> c.s.m.largest >= maxBlock
  {
    hide Inv, Reachable, Next, InitialSize, InitialCount, Grown, RoomMade, Usable;
    var k := ReachableInv(c, maxSize, maxBlock);
    SizesStep(c, a);
    SizeAtLeastTwo(c, maxSize, maxBlock);
    GrowthExact(c, maxSize, maxBlock);
    GrownBounds(InitialSize(maxSize, maxBlock), maxBlock, Allocations(c, maxSize, maxBlock));
  }

  lemma {:induction false} GrownMonotone(size: nat, maxBlock: nat, s: nat, a: nat)
    requires s <= a
    ensures Grown(size, maxBlock, s) <= Grown(size, maxBlock, a)
    decreases a
  {
    if s < a { GrownMonotone(size, maxBlock, s, a - 1); }
  }

  // ---- Linear growth ----

  lemma {:induction false} ConcatFits(vs: seq<Block>)
    requires BlocksOk(vs)
    ensures 0 <= |Concat(vs)| <= Usable(vs)
  {
    hide IsPow2;
    if vs != [] {
      assert IndexOk(vs[0]);
      ConcatFits(vs[1..]);
    }
  }

  lemma {:induction false} UsableNatural(vs: seq<Block>)
    requires forall i :: 0 <= i < |vs| ==> |vs[i].slots| >= 1
    ensures Usable(vs) >= 0
  {
    if vs != [] { UsableNatural(vs[1..]); }
  }

  /** The queue never holds more than its blocks have room for. */
  lemma QueueFits(c: Config, k: Setup)
    requires Inv(c, k) && HasQueue(c)
    ensures |AbstractQueue(c)| <= Usable(c.s.m.blocks)
  {
    hide Concat, Usable, ProducerKnows, ConsumerKnows, PeekOk, RingInv, IndexOk, Roomy;
    var vs, ti := View(c.s.m.blocks, c.h.ring), c.h.ti;
    ConcatFits(vs[..ti + 1]);
    UsablePlus(vs[..ti + 1], vs[ti + 1..]);
    assert vs == vs[..ti + 1] + vs[ti + 1..];
    UsableNatural(vs[ti + 1..]);
  }

  lemma {:induction false} RoomAtMost(size: nat, maxBlock: nat, a: nat)
    requires size <= 2 * maxBlock && maxBlock >= 1
    ensures Grown(size, maxBlock, a) <= 2 * maxBlock
    ensures RoomMade(size, maxBlock, a) <= a * (2 * maxBlock - 1)
  {
    if a > 0 {
      RoomAtMost(size, maxBlock, a - 1);
      assert a * (2 * maxBlock - 1) == (a - 1) * (2 * maxBlock - 1) + (2 * maxBlock - 1);
    }
  }

  /** The room there is to begin with. */
  function InitialRoom(maxSize: nat, maxBlock: nat): int
    requires maxBlock >= 2
  {
    InitialCount(maxSize, maxBlock) * (InitialSize(maxSize, maxBlock) - 1)
  }

  /** In every reachable configuration the number of allocations is at least linear
      in the number of elements held. */
  lemma AtLeastLinear(c: Config, maxSize: nat, maxBlock: nat)
    requires Reachable(c, maxSize, maxBlock)
    ensures HasQueue(c)
    ensures |AbstractQueue(c)| <= InitialRoom(maxSize, maxBlock)
                                    + Allocations(c, maxSize, maxBlock) * (2 * maxBlock - 1)
  {
    hide InitialSize, InitialCount, Usable, Reachable, RoomMade, Grown, Inv, HasQueue, AbstractQueue;
    var k := ReachableInv(c, maxSize, maxBlock);
    InvHasQueue(c, k);
    QueueFits(c, k);
    SizeAtLeastTwo(c, maxSize, maxBlock);
    GrowthExact(c, maxSize, maxBlock);
    FirstSize(c, k);
    RoomAtMost(InitialSize(maxSize, maxBlock), maxBlock, Allocations(c, maxSize, maxBlock));
  }

  lemma FirstSize(c: Config, k: Setup)
    requires Inv(c, k)
    ensures k.firstSize <= 2 * c.s.m.maxBlock
  {
    hide RingInv, RoomOk, ProducerKnows, ConsumerKnows, PeekOk;
  }

  lemma {:induction false} SquareBelowPow2(t: nat)
    requires t >= 4
    ensures t * t <= Pow2(t)
  {
    if t == 4 {
      assert Pow2(4) == 2 * Pow2(3) && Pow2(3) == 2 * Pow2(2);
    } else {
      SquareBelowPow2(t - 1);
      assert t * t == (t - 1) * (t - 1) + 2 * t - 1;
      assert (t - 1) * (t - 1) >= 4 * (t - 1);
    }
  }

  /** Some power of two exceeds any linear function of its exponent. */
  lemma Outgrows(a: nat, b: nat) returns (t: nat)
    ensures Pow2(t) >= a + b * t
  {
    t := a + b + 4;
    SquareBelowPow2(t);
    assert t * t == a * t + b * t + 4 * t;
    assert a * t >= a by { assert a * (t - 1) >= 0; }
  }

  /** The number of allocations is not O(lg n): whatever the factor, there is a run of
      nothing but n = 2^t enqueues in which more than `factor * t` blocks are made. */
  lemma NotLogarithmic(maxSize: nat, maxBlock: nat, v: Elem, factor: nat) returns (c: Config, t: nat)
    requires maxSize >= 1 && maxBlock >= 2 && IsPow2(maxBlock)
    ensures Reachable(c, maxSize, maxBlock) && c.s.p.PIdle?
    ensures |c.h.enqueued| == Pow2(t) && c.h.removed == []
    ensures Allocations(c, maxSize, maxBlock) > factor * t
  {
    hide InitialSize, InitialCount, Reachable, HasQueue, AbstractQueue, Inv, Pow2, IsPow2;
    var d := 2 * maxBlock - 1;
    var room := InitialRoom(maxSize, maxBlock);
    var base: nat := if room >= 0 then room + d else d;
    t := Outgrows(base + 1, factor * d);
    c := Fill(maxSize, maxBlock, v, Pow2(t));
    AtLeastLinear(c, maxSize, maxBlock);
    var k := ReachableInv(c, maxSize, maxBlock);
    InvHasQueue(c, k);
    assert |AbstractQueue(c)| == Pow2(t);
    MoreThan(Allocations(c, maxSize, maxBlock), factor * t, d, factor, t);
  }

  /** Blocks of different sizes do occur, whenever the first ones are smaller than
      MAX_BLOCK_SIZE. */
  lemma SizesDiffer(maxSize: nat, maxBlock: nat, v: Elem) returns (c: Config)
    requires maxSize >= 1 && maxBlock >= 2 && IsPow2(maxBlock) && InitialSize(maxSize, maxBlock) < maxBlock
    ensures Reachable(c, maxSize, maxBlock) && c.s.m.largest >= 2 * InitialSize(maxSize, maxBlock)
  {
    hide InitialSize, InitialCount, Reachable, Usable, RoomMade, IsPow2;
    var t;
    c, t := NotLogarithmic(maxSize, maxBlock, v, 0);
    GrowthExact(c, maxSize, maxBlock);
    GrownMonotone(InitialSize(maxSize, maxBlock), maxBlock, 1, Allocations(c, maxSize, maxBlock));
    assert Grown(InitialSize(maxSize, maxBlock), maxBlock, 0) == InitialSize(maxSize, maxBlock);
  }

  lemma MoreThan(a: int, b: int, d: int, factor: nat, t: nat)
    requires d >= 1 && b == factor * t && a * d > factor * d * t
    ensures a > b
  {
    assert factor * d * t == b * d by {
      assert factor * d * t == factor * (d * t) == factor * (t * d) == (factor * t) * d;
    }
    if a <= b {
      MulMonotone(a, b, d);
      assert false;
    }
  }
}
