/** The main results about the concurrent queue: what holds of every run, under
    every schedule, from the constructor on. */
module SpscTheorems {
  import opened Elements
  import opened Words
  import opened Blocks
  import opened Rings
  import opened Spsc
  import opened SpscInvariant
  import opened SpscProducer
  import opened SpscConsumer

  // ---- The constructor establishes the invariant ----

  /** The block-count formula is the ceiling of maxSize / (MAX_BLOCK_SIZE - 1),
      plus one spare block. */
  lemma BlockCount(maxSize: nat, maxBlock: nat)
    requires maxSize >= 1 && maxBlock >= 2
    ensures var n, d := (maxSize + maxBlock * 2 - 3) / (maxBlock - 1), maxBlock - 1;
      && n >= 2
      && (n - 1) * d >= maxSize > (n - 2) * d
  {
    var d := maxBlock - 1;
    var x := maxSize + 2 * d - 1;
    var n, r := x / d, x % d;
    assert x == n * d + r && 0 <= r < d;
    assert (n - 1) * d == n * d - d && (n - 2) * d == n * d - 2 * d;
    if n <= 1 { BelowTwo(n, d); assert false; }
  }

  lemma BelowTwo(n: int, d: int)
    requires n <= 1 && d >= 1
    ensures n * d <= d
  {
  }

  /** `p` is the least power of two with a slot to spare for `maxSize` elements. */
  ghost predicate RoundedUp(p: nat, maxSize: nat) { LeastPow2AtLeast(p, maxSize + 1) }

  /** What the documentation promises of `n` blocks of `size` slots. If rounding up gives
      more than twice MAX_BLOCK_SIZE, the blocks have MAX_BLOCK_SIZE slots, and there are
      so many that all but one hold `maxSize` elements, and no more than needed for
      that. Otherwise there is one block of just the rounded-up size. */
  ghost predicate Promised(n: int, size: int, maxSize: nat, maxBlock: nat) {
    exists p: nat :: RoundedUp(p, maxSize) &&
      if p > 2 * maxBlock
      then n >= 2 && (n - 1) * (maxBlock - 1) >= maxSize > (n - 2) * (maxBlock - 1) && size == maxBlock
      else n == 1 && size == p
  }

  /** What the constructor builds, for every `maxSize` and MAX_BLOCK_SIZE: as many blocks,
      of the size, as promised, all of them empty. */
  lemma InitialBlocks(maxSize: nat, maxBlock: nat, bytes: Elem)
    requires maxSize >= 1 && maxBlock >= 2
    ensures var m := InitialState(maxSize, maxBlock, bytes).m;
      && Promised(|m.blocks|, m.largest, maxSize, maxBlock)
      && forall i :: 0 <= i < |m.blocks| ==>
           && |m.blocks[i].slots| == m.largest
           && m.blocks[i].front == m.blocks[i].tail == m.blocks[i].localFront == m.blocks[i].localTail == 0
           && forall j :: 0 <= j < m.largest ==> !m.blocks[i].slots[j].live
  {
    var p := CeilPow2(maxSize + 1);
    CeilPow2Least(maxSize + 1);
    assert RoundedUp(p, maxSize);
    BlockCount(maxSize, maxBlock);
    hide CeilPow2, IsPow2, RoundedUp;
  }

  /** The promise leaves no choice. */
  lemma PromiseIsExact(n: int, size: int, n': int, size': int, maxSize: nat, maxBlock: nat)
    requires maxBlock >= 2
    requires Promised(n, size, maxSize, maxBlock) && Promised(n', size', maxSize, maxBlock)
    ensures n == n' && size == size'
  {
    var p: nat :| RoundedUp(p, maxSize) &&
      if p > 2 * maxBlock
      then n >= 2 && (n - 1) * (maxBlock - 1) >= maxSize > (n - 2) * (maxBlock - 1) && size == maxBlock
      else n == 1 && size == p;
    var q: nat :| RoundedUp(q, maxSize) &&
      if q > 2 * maxBlock
      then n' >= 2 && (n' - 1) * (maxBlock - 1) >= maxSize > (n' - 2) * (maxBlock - 1) && size' == maxBlock
      else n' == 1 && size' == q;
    LeastIsUnique(p, q, maxSize + 1);
    hide RoundedUp;
    if p > 2 * maxBlock {
      if n < n' {
        MulMonotone(n - 1, n' - 2, maxBlock - 1);
      } else if n' < n {
        MulMonotone(n' - 1, n - 2, maxBlock - 1);
      }
    }
  }

  lemma LeastIsUnique(p: nat, q: nat, x: nat)
    requires LeastPow2AtLeast(p, x) && LeastPow2AtLeast(q, x)
    ensures p == q
  {
  }

  lemma InitialSizes(maxSize: nat, maxBlock: nat)
    requires maxSize >= 1 && maxBlock >= 2 && IsPow2(maxBlock)
    ensures var n, size := InitialCount(maxSize, maxBlock), InitialSize(maxSize, maxBlock);
      n >= 1 && 2 <= size <= 2 * maxBlock && IsPow2(size) && Roomy(n, size, maxSize)
  {
    CeilPow2Least(maxSize + 1);
    BlockCount(maxSize, maxBlock);
  }

  function SetupOf(maxSize: nat, maxBlock: nat, bytes: Elem): Setup
    requires maxBlock >= 2
  {
    Setup(maxSize, InitialSize(maxSize, maxBlock),
          Usable(InitialState(maxSize, maxBlock, bytes).m.blocks))
  }

  lemma InitialInv(maxSize: nat, maxBlock: nat, bytes: Elem)
    requires maxSize >= 1 && maxBlock >= 2 && IsPow2(maxBlock)
    ensures Inv(InitialConfig(maxSize, maxBlock, bytes), SetupOf(maxSize, maxBlock, bytes))
    ensures AbstractQueue(InitialConfig(maxSize, maxBlock, bytes)) == []
  {
    var c, k := InitialConfig(maxSize, maxBlock, bytes), SetupOf(maxSize, maxBlock, bytes);
    InitialSizes(maxSize, maxBlock);
    hide IsPow2, InitialSize, InitialCount, Usable;
    var size := InitialSize(maxSize, maxBlock);
    EmptyBlockOk(size, bytes);
    var vs := View(c.s.m.blocks, c.h.ring);
    assert vs == c.s.m.blocks;
    EmptyRing(vs, EmptyBlock(size, bytes));
    assert Linked(c.s.m, c.h.ring, 0, false);
  }

  lemma EmptyRing(vs: seq<Block>, b: Block)
    requires |vs| > 0 && forall i :: 0 <= i < |vs| ==> vs[i] == b
    requires IndexOk(b) && SlotsOk(b, false, false) && Count(b) == 0
    ensures RingInv(vs, 0, Quiet, false) && Queue(vs, 0) == []
  {
    hide IndexOk, SlotsOk;
    QueueHead(vs, 0, Quiet, false);
  }

  lemma InvHasQueue(c: Config, k: Setup)
    requires Inv(c, k)
    ensures HasQueue(c) && c.h.enqueued == c.h.removed + AbstractQueue(c)
    ensures Length(c.h) == |AbstractQueue(c)|
  {
    hide Usable, Roomy, SizesOk, ProducerKnows, ConsumerKnows, PeekOk, RoomOk, Queue, View;
    Places(c, k);
  }

  // ---- Every step of every run ----

  lemma CallKeeps(c: Config, k: Setup, a: Action)
    requires Inv(c, k) && (a.CallEnqueue? || a.CallConsumer?)
    ensures Inv(Next(c, a), k) && AbstractQueue(Next(c, a)) == AbstractQueue(c)
    ensures Next(c, a).h == c.h
  {
    hide RingInv, Queue, Usable, Roomy, Linked, SizesOk, RoomOk, PeekOk, View;
  }

  lemma StepKeeps(c: Config, k: Setup, a: Action)
    requires Inv(c, k)
    ensures Inv(Next(c, a), k)
  {
    hide Inv, ProducerEffect, ConsumerEffect;
    match a
    case CallEnqueue(_, _) => CallKeeps(c, k, a);
    case CallConsumer(_) => CallKeeps(c, k, a);
    case StepProducer(ok, bytes) => if c.s.p.PBusy? { ProducerStepCorrect(c, k, ok, bytes); }
    case StepConsumer => if c.s.c.CBusy? { ConsumerStepCorrect(c, k); }
  }

  lemma {:induction false} RunKeeps(c: Config, k: Setup, schedule: seq<Action>, n: nat)
    requires Inv(c, k) && n <= |schedule|
    ensures Inv(After(c, schedule, n), k)
  {
    hide Inv, Next;
    if n > 0 {
      RunKeeps(c, k, schedule, n - 1);
      StepKeeps(After(c, schedule, n - 1), k, schedule[n - 1]);
    }
  }

  /** A configuration the constructor leaves behind. */
  ghost predicate Starts(c: Config, maxSize: nat, maxBlock: nat) {
    && maxSize >= 1 && maxBlock >= 2 && IsPow2(maxBlock)
    && exists bytes: Elem :: c == InitialConfig(maxSize, maxBlock, bytes)
  }

  lemma StartsInv(c: Config, maxSize: nat, maxBlock: nat) returns (k: Setup)
    requires Starts(c, maxSize, maxBlock)
    ensures Inv(c, k) && k.maxSize == maxSize && k.firstUsable == Usable(c.s.m.blocks)
    ensures c.s.m.maxBlock == maxBlock && c.s.c == CIdle(NoAnswer) && c.s.p == PIdle(NotCalled) && c.h.peak == 0
  {
    hide Inv, InitialSize, Usable;
    var bytes: Elem :| c == InitialConfig(maxSize, maxBlock, bytes);
    k := SetupOf(maxSize, maxBlock, bytes);
    InitialInv(maxSize, maxBlock, bytes);
  }

  /** A configuration some run from the constructor leads to. */
  ghost predicate Reachable(c: Config, maxSize: nat, maxBlock: nat) {
    && maxSize >= 1 && maxBlock >= 2 && IsPow2(maxBlock)
    && exists bytes: Elem, schedule: seq<Action> ::
      c == After(InitialConfig(maxSize, maxBlock, bytes), schedule, |schedule|)
  }

  lemma ReachableInv(c: Config, maxSize: nat, maxBlock: nat) returns (k: Setup)
    requires Reachable(c, maxSize, maxBlock)
    ensures Inv(c, k) && k.maxSize == maxSize && k.firstSize == InitialSize(maxSize, maxBlock)
    ensures c.s.m.maxBlock == maxBlock
  {
    hide Inv, InitialConfig, After, InitialSize;
    var bytes: Elem, schedule: seq<Action> :|
      c == After(InitialConfig(maxSize, maxBlock, bytes), schedule, |schedule|);
    k := SetupOf(maxSize, maxBlock, bytes);
    InitialInv(maxSize, maxBlock, bytes);
    InitialIdle(maxSize, maxBlock, bytes);
    RunKeeps(InitialConfig(maxSize, maxBlock, bytes), k, schedule, |schedule|);
    MaxBlockFixed(InitialConfig(maxSize, maxBlock, bytes), schedule, |schedule|);
  }

  lemma InitialIdle(maxSize: nat, maxBlock: nat, bytes: Elem)
    requires maxBlock >= 2
    ensures var c := InitialConfig(maxSize, maxBlock, bytes);
      c.s.m.maxBlock == maxBlock && c.s.c.CIdle? && c.s.p.PIdle? && c.h.peak == 0
  {
  }

  lemma {:induction false} MaxBlockFixed(c: Config, schedule: seq<Action>, n: nat)
    requires n <= |schedule|
    ensures After(c, schedule, n).s.m.maxBlock == c.s.m.maxBlock
  {
    hide Next;
    if n > 0 {
      MaxBlockFixed(c, schedule, n - 1);
      MaxBlockStep(After(c, schedule, n - 1), schedule[n - 1]);
    }
  }

  lemma MaxBlockStep(c: Config, a: Action)
    ensures Next(c, a).s.m.maxBlock == c.s.m.maxBlock
  {
    hide MaskInc, Observe, ProducerSafe, ConsumerSafe;
  }

  // ---- The queue is a FIFO queue ----

  /** The elements from `frontBlock` to `tailBlock` along `next`, read off memory
      alone; `fuel` bounds the walk. */
  ghost function WalkQueue(m: Memory, b: int, fuel: nat): seq<Elem>
    decreases fuel
  {
    if fuel == 0 || !(0 <= b < |m.blocks|) || !IndexOk(m.blocks[b]) then []
    else if b == m.tailBlock || b >= |m.next| then Contents(m.blocks[b])
    else Contents(m.blocks[b]) + WalkQueue(m, m.next[b], fuel - 1)
  }

  lemma ConcatSlice(vs: seq<Block>, i: int, j: int)
    requires BlocksOk(vs) && 0 <= i < j <= |vs|
    ensures Concat(vs[i..j]) == Contents(vs[i]) + Concat(vs[i + 1..j])
    ensures i + 1 == j ==> Concat(vs[i..j]) == Contents(vs[i])
  {
    hide IndexOk, Contents;
    assert vs[i..j][0] == vs[i] && vs[i..j][1..] == vs[i + 1..j];
    if i + 1 == j { assert vs[i + 1..j] == []; }
  }

  lemma {:induction false} WalkFrom(m: Memory, ring: seq<int>, ti: int, spare: bool, i: int, fuel: nat)
    requires Linked(m, ring, ti, spare) && BlocksOk(View(m.blocks, ring))
    requires 0 <= i <= ti && fuel > ti - i
    ensures WalkQueue(m, ring[i], fuel) == Concat(View(m.blocks, ring)[i..ti + 1])
    decreases ti - i
  {
    hide IndexOk, Contents, Concat, View;
    var vs := View(m.blocks, ring);
    assert vs[i] == m.blocks[ring[i]] && IndexOk(vs[i]);
    ConcatSlice(vs, i, ti + 1);
    if i < ti {
      assert ring[i] != ring[ti] && m.next[ring[i]] == ring[i + 1];
      WalkFrom(m, ring, ti, spare, i + 1, fuel - 1);
    }
  }

  /** In every reachable configuration: the queue found by walking memory from
      `frontBlock` to `tailBlock` is what has been enqueued less what has been
      removed, so the removed elements are a prefix, in order, of the enqueued
      ones, and nothing is lost, duplicated or reordered. */
  lemma Fifo(c: Config, maxSize: nat, maxBlock: nat)
    requires Reachable(c, maxSize, maxBlock)
    ensures c.h.enqueued == c.h.removed + WalkQueue(c.s.m, c.s.m.frontBlock, |c.s.m.blocks|)
    ensures c.h.removed <= c.h.enqueued
  {
    hide Inv, WalkQueue, Reachable, HasQueue, AbstractQueue;
    var k := ReachableInv(c, maxSize, maxBlock);
    InvHasQueue(c, k);
    WalkIsQueue(c, k);
  }

  lemma WalkIsQueue(c: Config, k: Setup)
    requires Inv(c, k) && HasQueue(c)
    ensures WalkQueue(c.s.m, c.s.m.frontBlock, |c.s.m.blocks|) == AbstractQueue(c)
  {
    hide RingInv, Usable, Roomy, SizesOk, RoomOk, ProducerKnows, ConsumerKnows, PeekOk, WalkQueue, Concat;
    WalkFrom(c.s.m, c.h.ring, c.h.ti, HasSpare(c.s.p), 0, |c.s.m.blocks|);
  }

  /** No assertion of the source fails, no object is constructed over a live one,
      no dead object is read or destroyed, and no invalid pointer or index is
      followed, in any run. */
  lemma NeverFaults(c: Config, maxSize: nat, maxBlock: nat)
    requires Reachable(c, maxSize, maxBlock)
    ensures !c.s.p.PFault? && !c.s.c.CFault?
    ensures c.s.p.PBusy? ==> ProducerSafe(c.s.m, c.s.p.at)
    ensures c.s.c.CBusy? ==> ConsumerSafe(c.s.m, c.s.c.at)
  {
    var k := ReachableInv(c, maxSize, maxBlock);
    if c.s.p.PBusy? { ProducerIsSafe(c, k); }
    if c.s.c.CBusy? { ConsumerIsSafe(c, k); }
    hide RingInv, Usable, Roomy, Linked, SizesOk, RoomOk, PeekOk, View, Queue, Reachable, ProducerSafe, ConsumerSafe;
  }

  // ---- The shape of the ring ----

  function Follow(m: Memory, b: int, steps: nat): int {
    if steps == 0 then b
    else var p := Follow(m, b, steps - 1); if 0 <= p < |m.next| then m.next[p] else NULL
  }

  lemma {:induction false} FollowRing(m: Memory, ring: seq<int>, ti: int, spare: bool, steps: nat)
    requires Linked(m, ring, ti, spare) && steps <= |ring|
    ensures Follow(m, m.frontBlock, steps) == if steps == |ring| then ring[0] else ring[steps]
  {
    if steps > 0 { FollowRing(m, ring, ti, spare, steps - 1); }
  }

  /** Following `next` from `frontBlock` visits `n` different blocks and comes back
      after exactly `n` steps; `tailBlock` is met after `t` steps; every block
      strictly between the two is full; a tail block that is not the front block is
      not empty; and every block after the tail block is empty, except for the one
      the producer is about to make the tail block. At most one block is outside the
      ring, the one just made. */
  ghost predicate OneRing(m: Memory, p: Producer, n: nat, t: nat) {
    && t < n && n <= |m.blocks| <= n + 1 && (|m.blocks| == n + 1 ==> HasSpare(p))
    && Follow(m, m.frontBlock, n) == m.frontBlock && Follow(m, m.frontBlock, t) == m.tailBlock
    && (forall i: nat, j: nat :: i < j < n ==> Follow(m, m.frontBlock, i) != Follow(m, m.frontBlock, j))
    && forall i: nat :: i < n ==>
      && 0 <= Follow(m, m.frontBlock, i) < |m.blocks|
      && var b := m.blocks[Follow(m, m.frontBlock, i)];
      && (0 < i < t ==> Full(b))
      && (0 < i == t ==> Count(b) > 0)
      && (i > t ==> Count(b) == 0 || (i == t + 1 && Count(b) == 1 && p.PBusy? && p.at.StoreTailBlock?))
  }

  lemma PlaceShape(b: Block, i: int, ti: int, ph: Phase, hole: bool)
    requires PlaceOk(b, i, ti, ph, hole)
    ensures 0 < i < ti ==> Full(b)
    ensures 0 < i == ti ==> Count(b) > 0
    ensures i > ti ==> Count(b) == 0 || (i == ti + 1 && Count(b) == 1 && ph == NextReady)
  {
  }

  /** Where `next` leads from `frontBlock`, step by step. */
  lemma Followed(m: Memory, ring: seq<int>, ti: int, spare: bool)
    requires Linked(m, ring, ti, spare)
    ensures forall i: nat :: i <= |ring| ==> Follow(m, m.frontBlock, i) == if i == |ring| then ring[0] else ring[i]
  {
    hide Follow;
    forall i: nat | i <= |ring|
      ensures Follow(m, m.frontBlock, i) == if i == |ring| then ring[0] else ring[i]
    {
      FollowRing(m, ring, ti, spare, i);
    }
  }

  lemma ShapeOf(c: Config, k: Setup)
    requires Inv(c, k)
    ensures OneRing(c.s.m, c.s.p, |c.h.ring|, c.h.ti)
  {
    hide Usable, Roomy, SizesOk, RoomOk, ProducerKnows, ConsumerKnows, PeekOk, Queue, Follow, PlaceOk, Full, Count;
    Followed(c.s.m, c.h.ring, c.h.ti, HasSpare(c.s.p));
    var vs := View(c.s.m.blocks, c.h.ring);
    forall i | 0 <= i < |vs| ensures PlaceOk(vs[i], i, c.h.ti, PhaseOf(c.s.p), HoleOf(c.s.c)) {}
    hide RingInv;
    forall i | 0 <= i < |vs|
      ensures 0 < i < c.h.ti ==> Full(vs[i])
      ensures 0 < i == c.h.ti ==> Count(vs[i]) > 0
      ensures i > c.h.ti ==>
        Count(vs[i]) == 0 || (i == c.h.ti + 1 && Count(vs[i]) == 1 && PhaseOf(c.s.p) == NextReady)
    {
      PlaceShape(vs[i], i, c.h.ti, PhaseOf(c.s.p), HoleOf(c.s.c));
    }
  }

  /** In every reachable configuration the blocks form one ring of that shape. */
  lemma RingShape(c: Config, maxSize: nat, maxBlock: nat)
    requires Reachable(c, maxSize, maxBlock)
    ensures exists n, t :: OneRing(c.s.m, c.s.p, n, t)
  {
    var k := ReachableInv(c, maxSize, maxBlock);
    hide Inv, OneRing, Reachable;
    ShapeOf(c, k);
  }

  /** The producer has constructed in block `b` and not yet stored its `tail`. */
  predicate Constructing(p: Producer, b: int) {
    p.PBusy? && ((p.at.StoreTail? && p.at.tb == b) || (p.at.NextStoreTail? && p.at.nb == b))
  }

  /** The consumer has destroyed in block `b` and not yet stored its `front`. */
  predicate Destroying(c: Consumer, b: int) {
    c.CBusy? && c.at.StoreFront? && c.at.fb == b
  }

  /** In every reachable configuration, for every block ever made: the shadow indices
      are sound; the size is a power of two, at least that of the first block and at
      most twice MAX_BLOCK_SIZE; and a slot holds a live object exactly if it lies
      between `front` and `tail`, apart from the slot the producer has just
      constructed in and the one the consumer has just destroyed. */
  lemma BlocksSound(c: Config, maxSize: nat, maxBlock: nat, b: int)
    requires Reachable(c, maxSize, maxBlock) && 0 <= b < |c.s.m.blocks|
    ensures IndexOk(c.s.m.blocks[b])
    ensures SlotsOk(c.s.m.blocks[b], Constructing(c.s.p, b), Destroying(c.s.c, b))
    ensures InitialSize(maxSize, maxBlock) <= |c.s.m.blocks[b].slots| <= c.s.m.largest <= 2 * maxBlock
  {
    var k := ReachableInv(c, maxSize, maxBlock);
    hide Inv, InitialSize, Reachable, IndexOk, SlotsOk, Constructing, Destroying;
    BlockSound(c, k, b);
  }

  lemma BlockSound(c: Config, k: Setup, b: int)
    requires Inv(c, k) && 0 <= b < |c.s.m.blocks|
    ensures IndexOk(c.s.m.blocks[b])
    ensures SlotsOk(c.s.m.blocks[b], Constructing(c.s.p, b), Destroying(c.s.c, b))
    ensures k.firstSize <= |c.s.m.blocks[b].slots| <= c.s.m.largest <= 2 * c.s.m.maxBlock
  {
    hide Inv, IndexOk, SlotsOk, Linked, SizesOk, RingInv, RoomOk, ProducerKnows, ConsumerKnows, PeekOk, View;
    hide Constructing, Destroying, HasSpare;
    InvParts(c, k);
    SizesOf(c.s.m, k, b);
    if HasSpare(c.s.p) && b == |c.s.m.blocks| - 1 {
      SpareSound(c, k);
    } else {
      var i := PlaceOf(c.s.m, c.h.ring, c.h.ti, HasSpare(c.s.p), b);
      SoundAt(c, k, i);
    }
  }

  lemma SizesOf(m: Memory, k: Setup, b: int)
    requires SizesOk(m, k) && 0 <= b < |m.blocks|
    ensures k.firstSize <= |m.blocks[b].slots| <= m.largest <= 2 * m.maxBlock
  {
  }

  lemma SoundAt(c: Config, k: Setup, i: nat)
    requires Inv(c, k) && i < |c.h.ring|
    ensures var b := c.h.ring[i];
      && 0 <= b < |c.s.m.blocks| && IndexOk(c.s.m.blocks[b])
      && SlotsOk(c.s.m.blocks[b], Constructing(c.s.p, b), Destroying(c.s.c, b))
  {
    hide Usable, Roomy, RoomOk, SizesOk, PeekOk, Queue, IndexOk, SlotsOk, Full, Count, TailFilled, NoRoomSeen, SlotAt;
    var vs, ti := View(c.s.m.blocks, c.h.ring), c.h.ti;
    assert PlaceOk(vs[i], i, ti, PhaseOf(c.s.p), HoleOf(c.s.c));
    if i < ti { assert c.h.ring[i] != c.h.ring[ti]; }
    if i > ti { assert c.h.ring[ti] != c.h.ring[i]; }
    if i > ti + 1 { assert c.h.ring[ti + 1] != c.h.ring[i]; }
    if i < ti + 1 < |c.h.ring| { assert c.h.ring[i] != c.h.ring[ti + 1]; }
    if i > 0 { assert c.h.ring[0] != c.h.ring[i]; }
  }

  /** The block made but not spliced in yet. */
  lemma SpareSound(c: Config, k: Setup)
    requires Inv(c, k) && HasSpare(c.s.p)
    ensures var b := |c.s.m.blocks| - 1;
      && b >= 0 && IndexOk(c.s.m.blocks[b])
      && SlotsOk(c.s.m.blocks[b], Constructing(c.s.p, b), Destroying(c.s.c, b))
  {
    hide RingInv, Usable, Roomy, RoomOk, SizesOk, PeekOk, Queue, IndexOk, SlotsOk, Count, TailFilled, SlotAt;
  }

  /** Every block but the one not spliced in yet has a place in the ring. */
  lemma PlaceOf(m: Memory, ring: seq<int>, ti: int, spare: bool, b: int) returns (i: nat)
    requires Linked(m, ring, ti, spare) && 0 <= b < |m.blocks| && !(spare && b == |m.blocks| - 1)
    ensures i < |ring| && ring[i] == b
  {
    assert b in ring by {
      if b !in ring {
        forall x | x in ring ensures 0 <= x < |ring| && x != b { var j :| 0 <= j < |ring| && ring[j] == x; }
        TooMany(ring, Below(|ring|) - {b});
        assert false;
      }
    }
    i :| 0 <= i < |ring| && ring[i] == b;
  }

  lemma {:induction false} TooMany(xs: seq<int>, s: set<int>)
    requires forall x :: x in xs ==> x in s
    requires forall i, j :: 0 <= i < j < |xs| ==> xs[i] != xs[j]
    ensures |xs| <= |s|
  {
    if xs != [] {
      var x := xs[0];
      assert x in s;
      forall y | y in xs[1..] ensures y in s - {x} {
        var j :| 0 <= j < |xs| - 1 && xs[1..][j] == y;
        assert xs[0] != xs[j + 1];
      }
      TooMany(xs[1..], s - {x});
    }
  }

  ghost function Below(n: nat): (s: set<int>)
    ensures |s| == n && forall x :: x in s <==> 0 <= x < n
  {
    if n == 0 then {} else Below(n - 1) + {n - 1}
  }

  // ---- Refinement of an abstract queue, step by step ----

  /** What each answer means for the abstract queue. Every other step leaves it as
      it is. */
  ghost predicate Refines(c: Config, a: Action, c': Config)
    requires HasQueue(c) && HasQueue(c')
  {
    var q, q' := AbstractQueue(c), AbstractQueue(c');
    if a.StepProducer? && c.s.p.PBusy? && c'.s.p == PIdle(Accepted) then q' == q + [c.s.p.v]
    else if a.StepConsumer? && c.s.c.CBusy? && c'.s.c.CIdle? && c'.s.c.answer.Taken? then
      q == [c'.s.c.answer.v] + q'
    else if a.StepConsumer? && c.s.c.CBusy? && c'.s.c == CIdle(Dropped) then q != [] && q' == q[1..]
    else q' == q
  }

  lemma IdleProducer(c: Config, ok: bool, bytes: Elem)
    requires !c.s.p.PBusy?
    ensures Next(c, StepProducer(ok, bytes)) == c
  {
  }

  lemma IdleConsumer(c: Config)
    requires !c.s.c.CBusy?
    ensures Next(c, StepConsumer) == c
  {
  }

  lemma ProducerRefines(c: Config, k: Setup, ok: bool, bytes: Elem)
    requires Inv(c, k) && HasQueue(c) && HasQueue(Next(c, StepProducer(ok, bytes)))
    ensures Refines(c, StepProducer(ok, bytes), Next(c, StepProducer(ok, bytes)))
  {
    hide Inv, HasQueue, AbstractQueue, Next;
    if c.s.p.PBusy? {
      ProducerStepCorrect(c, k, ok, bytes);
    } else {
      IdleProducer(c, ok, bytes);
    }
  }

  lemma ConsumerRefines(c: Config, k: Setup)
    requires Inv(c, k) && HasQueue(c) && HasQueue(Next(c, StepConsumer))
    ensures Refines(c, StepConsumer, Next(c, StepConsumer))
  {
    hide Inv, HasQueue, AbstractQueue, Next, InBlock;
    if c.s.c.CBusy? {
      ConsumerStepCorrect(c, k);
    } else {
      IdleConsumer(c);
    }
  }

  /** Every step of every run is a step of an abstract FIFO queue: an enqueue takes
      effect when it returns true, a dequeue when it returns its element, and all
      other steps, among them advancing `frontBlock` and splicing a block, change
      nothing. */
  lemma StepRefines(c: Config, a: Action, maxSize: nat, maxBlock: nat)
    requires Reachable(c, maxSize, maxBlock)
    ensures HasQueue(c) && HasQueue(Next(c, a))
    ensures Refines(c, a, Next(c, a))
  {
    var k := ReachableInv(c, maxSize, maxBlock);
    StepKeeps(c, k, a);
    InvHasQueue(c, k);
    InvHasQueue(Next(c, a), k);
    hide Inv, AbstractQueue, HasQueue, Reachable, Next;
    match a
    case CallEnqueue(_, _) => CallKeeps(c, k, a);
    case CallConsumer(_) => CallKeeps(c, k, a);
    case StepProducer(ok, bytes) => ProducerRefines(c, k, ok, bytes);
    case StepConsumer => ConsumerRefines(c, k);
  }

  // ---- Honest emptiness ----

  predicate AboutToReadTail(c: Config) { c.s.c.CBusy? && c.s.c.at.ReadTail? }
  predicate HasReadTail(c: Config) { c.s.c.CBusy? && c.s.c.at.ReadTailBlock? }

  lemma IntoHasReadTail(c: Config, a: Action)
    requires c.s.c.CBusy? ==> ConsumerSafe(c.s.m, c.s.c.at)
    requires HasReadTail(Next(c, a))
    ensures
      || (HasReadTail(c) && a != StepConsumer && Next(c, a).h.sawEmpty == c.h.sawEmpty)
      || (AboutToReadTail(c) && a == StepConsumer && Next(c, a).h.sawEmpty == (Length(c.h) == 0))
  {
    hide ConsumerSafe, ProducerSafe, MaskInc;
    if a.StepProducer? {
      assert Next(c, a).s.c == c.s.c by { hide SetBlock; }
    }
  }

  lemma {:induction false} WhenTailWasRead(c: Config, k: Setup, schedule: seq<Action>, m: nat) returns (n: nat)
    requires Inv(c, k) && c.s.c.CIdle? && m <= |schedule| && HasReadTail(After(c, schedule, m))
    ensures n < m && schedule[n] == StepConsumer && AboutToReadTail(After(c, schedule, n))
    ensures After(c, schedule, m).h.sawEmpty == (Length(After(c, schedule, n).h) == 0)
    ensures forall i :: n < i <= m ==> HasReadTail(After(c, schedule, i))
    decreases m
  {
    hide Inv, Next, AboutToReadTail, Length, ConsumerSafe;
    assert m > 0;
    var before := After(c, schedule, m - 1);
    RunKeeps(c, k, schedule, m - 1);
    if before.s.c.CBusy? { ConsumerIsSafe(before, k); }
    IntoHasReadTail(before, schedule[m - 1]);
    hide HasReadTail;
    if HasReadTail(before) && schedule[m - 1] != StepConsumer {
      n := WhenTailWasRead(c, k, schedule, m - 1);
    } else {
      n := m - 1;
    }
  }

  predicate AnsweredEmpty(c: Config) { c.s.c == CIdle(Empty) }

  lemma IntoAnsweredEmpty(c: Config, a: Action)
    requires AnsweredEmpty(Next(c, a))
    ensures AnsweredEmpty(c) || (a == StepConsumer && c.s.c.CBusy?)
  {
    hide ConsumerSafe, ProducerSafe, MaskInc, SetBlock, Observe;
  }

  /** The step that gave the answer. */
  lemma {:induction false} WhenAnsweredEmpty(c: Config, schedule: seq<Action>, m: nat) returns (n: nat)
    requires c.s.c == CIdle(NoAnswer) && m <= |schedule| && AnsweredEmpty(After(c, schedule, m))
    ensures n < m && schedule[n] == StepConsumer && After(c, schedule, n).s.c.CBusy?
    ensures forall i :: n < i <= m ==> AnsweredEmpty(After(c, schedule, i))
    decreases m
  {
    hide Next;
    assert m > 0;
    IntoAnsweredEmpty(After(c, schedule, m - 1), schedule[m - 1]);
    if AnsweredEmpty(After(c, schedule, m - 1)) {
      n := WhenAnsweredEmpty(c, schedule, m - 1);
    } else {
      n := m - 1;
    }
  }

  /** Step `n` of the run is the load of `tail` at 233 of the call that still runs,
      or has answered, at step `m`; and the whole queue was empty then. */
  ghost predicate EmptyWhenTailRead(c: Config, schedule: seq<Action>, n: int, m: int)
    requires m <= |schedule|
  {
    && 0 <= n < m && schedule[n] == StepConsumer && AboutToReadTail(After(c, schedule, n))
    && HasQueue(After(c, schedule, n)) && AbstractQueue(After(c, schedule, n)) == []
    && (forall i :: n < i <= m ==> HasReadTail(After(c, schedule, i)) || AnsweredEmpty(After(c, schedule, i)))
  }

  /** In any run, if the consumer's last answer is that the queue is empty, then the
      whole queue was empty when the same call loaded `tail` at 233, whatever the
      producer did between that load and the load of `tailBlock`. */
  lemma HonestEmptiness(c: Config, maxSize: nat, maxBlock: nat, schedule: seq<Action>, m: nat)
    requires Starts(c, maxSize, maxBlock) && m <= |schedule| && AnsweredEmpty(After(c, schedule, m))
    ensures exists n :: EmptyWhenTailRead(c, schedule, n, m)
  {
    hide Inv, HasReadTail, AboutToReadTail, AbstractQueue, HasQueue, Next, ConsumerSafe, Starts;
    var k := StartsInv(c, maxSize, maxBlock);
    var answered := WhenAnsweredEmpty(c, schedule, m);
    RunKeeps(c, k, schedule, answered);
    assert AnsweredEmpty(After(c, schedule, answered + 1));
    ConsumerIsSafe(After(c, schedule, answered), k);
    EmptyComesFrom(After(c, schedule, answered));
    EmptySeen(After(c, schedule, answered), k);
    hide After, AnsweredEmpty;
    var n := WhenTailWasRead(c, k, schedule, answered);
    RunKeeps(c, k, schedule, n);
    InvHasQueue(After(c, schedule, n), k);
    assert EmptyWhenTailRead(c, schedule, n, m);
  }

  lemma EmptySeen(c: Config, k: Setup)
    requires Inv(c, k) && c.s.c.CBusy? && Next(c, StepConsumer).s.c == CIdle(Empty)
    ensures c.h.sawEmpty
  {
    hide Inv, AbstractQueue, HasQueue, Next;
    ConsumerStepCorrect(c, k);
  }

  lemma EmptyComesFrom(c: Config)
    requires c.s.c.CBusy? && ConsumerSafe(c.s.m, c.s.c.at) && Next(c, StepConsumer).s.c == CIdle(Empty)
    ensures HasReadTail(c)
  {
    hide ConsumerSafe, SetBlock, MaskInc, Observe;
  }

  /** Some run leads here in which the consumer's last call, which answered that the queue
      is empty, found it so. */
  ghost predicate EmptyRun(c: Config, maxSize: nat, maxBlock: nat) {
    exists c0: Config, schedule: seq<Action>, n: int ::
      && Starts(c0, maxSize, maxBlock) && c == After(c0, schedule, |schedule|)
      && EmptyWhenTailRead(c0, schedule, n, |schedule|)
  }

  lemma EmptyReachable(c: Config, maxSize: nat, maxBlock: nat)
    requires Reachable(c, maxSize, maxBlock) && AnsweredEmpty(c)
    ensures EmptyRun(c, maxSize, maxBlock)
  {
    hide InitialConfig, After, AnsweredEmpty, EmptyWhenTailRead, IsPow2;
    var bytes: Elem, schedule: seq<Action> :|
      c == After(InitialConfig(maxSize, maxBlock, bytes), schedule, |schedule|);
    var c0 := InitialConfig(maxSize, maxBlock, bytes);
    assert Starts(c0, maxSize, maxBlock);
    HonestEmptiness(c0, maxSize, maxBlock, schedule, |schedule|);
    var n :| EmptyWhenTailRead(c0, schedule, n, |schedule|);
  }

  // ---- Memory ----

  lemma PeakStep(c: Config, a: Action, bound: int)
    requires c.h.peak <= bound && Length(Next(c, a).h) <= bound
    ensures Next(c, a).h.peak <= bound
  {
    hide Step, ProducerSafe, ConsumerSafe;
  }

  lemma {:induction false} PeakBound(c: Config, schedule: seq<Action>, n: nat, bound: int)
    requires c.h.peak <= bound && n <= |schedule|
    requires forall i :: 0 <= i <= n ==> Length(After(c, schedule, i).h) <= bound
    ensures After(c, schedule, n).h.peak <= bound
  {
    hide Next;
    if n > 0 {
      PeakBound(c, schedule, n - 1, bound);
      assert Length(After(c, schedule, n).h) <= bound;
      PeakStep(After(c, schedule, n - 1), schedule[n - 1], bound);
    }
  }

  /** In any run in which the queue never holds more than `bound` elements, the
      blocks together never have room for more than the larger of what they were
      built with and `bound + 2 * (2 * MAX_BLOCK_SIZE - 1)`. */
  lemma MemoryBound(c: Config, maxSize: nat, maxBlock: nat, schedule: seq<Action>, n: nat, bound: nat)
    requires Starts(c, maxSize, maxBlock) && n <= |schedule|
    requires forall i :: 0 <= i <= n ==> Length(After(c, schedule, i).h) <= bound
    ensures var room := Usable(After(c, schedule, n).s.m.blocks);
      room <= Usable(c.s.m.blocks) || room <= bound + 2 * (2 * maxBlock - 1)
  {
    hide Inv, Next, After, Usable, Roomy, RingInv, SizesOk, ProducerKnows, ConsumerKnows, PeekOk, Linked, Starts;
    var k := StartsInv(c, maxSize, maxBlock);
    MaxBlockFixed(c, schedule, n);
    RunKeeps(c, k, schedule, n);
    InvParts(After(c, schedule, n), k);
    PeakBound(c, schedule, n, bound);
  }

  // ---- Peek and pop ----

  /** While the element peeked at has not been removed, it stays at the place that
      `peek` returned, alive, and at the head of the queue; the consumer's next
      removal is from that very place and cannot fail. */
  lemma PeekCoherent(c: Config, maxSize: nat, maxBlock: nat)
    requires Reachable(c, maxSize, maxBlock) && c.h.peeked.Some?
    ensures HasQueue(c)
    ensures var (b, i) := c.h.peeked.value;
      && (!HoleOf(c.s.c) ==>
          InBlock(c.s.m, b, i) && AbstractQueue(c) != [] && c.s.m.blocks[b].slots[i] == Slot(true, AbstractQueue(c)[0]))
      && (c.s.c.CBusy? ==> match c.s.c.at
          case Move(fb, bf) => fb == b && bf == i
          case Destroy(fb, bf, _) => fb == b && bf == i
          case StoreFront(fb, bf, v) => fb == b && bf == i && AbstractQueue(c) != [] && v == AbstractQueue(c)[0]
          case _ => true)
    ensures c.s.c.CBusy? ==> Next(c, StepConsumer).s.c != CIdle(Empty)
  {
    var k := ReachableInv(c, maxSize, maxBlock);
    InvHasQueue(c, k);
    PeekPlace(c, k);
    PeekNotEmpty(c, k);
  }

  lemma PeekNotEmpty(c: Config, k: Setup)
    requires Inv(c, k) && c.h.peeked.Some?
    ensures c.s.c.CBusy? ==> Next(c, StepConsumer).s.c != CIdle(Empty)
  {
    hide Inv, Next, AbstractQueue, InBlock;
    if c.s.c.CBusy? { ConsumerStepCorrect(c, k); }
  }

  lemma PeekPlace(c: Config, k: Setup)
    requires Inv(c, k) && HasQueue(c) && c.h.peeked.Some?
    ensures var (b, i) := c.h.peeked.value;
      && (!HoleOf(c.s.c) ==>
          InBlock(c.s.m, b, i) && AbstractQueue(c) != [] && c.s.m.blocks[b].slots[i] == Slot(true, AbstractQueue(c)[0]))
      && (c.s.c.CBusy? ==> match c.s.c.at
          case Move(fb, bf) => fb == b && bf == i
          case Destroy(fb, bf, _) => fb == b && bf == i
          case StoreFront(fb, bf, v) => fb == b && bf == i && AbstractQueue(c) != [] && v == AbstractQueue(c)[0]
          case _ => true)
  {
    Places(c, k);
    var vs, ti, ph := View(c.s.m.blocks, c.h.ring), c.h.ti, PhaseOf(c.s.p);
    if HoleOf(c.s.c) {
      InvParts(c, k);
      QueueHead(vs, ti, ph, true);
      assert AbstractQueue(c) != [] && AbstractQueue(c)[0] == vs[0].slots[vs[0].front].val;
    } else {
      FrontIsHead(c, k);
      if FrontExhausted(vs, ti) { NextIsHead(c, k); }
    }
    hide RingInv, SlotsOk, Queue, Usable, Roomy, Linked, SizesOk, ProducerKnows, RoomOk, View, IsPow2;
  }

  lemma LogsGrow(c: Config, a: Action)
    ensures c.h.enqueued <= Next(c, a).h.enqueued && c.h.removed <= Next(c, a).h.removed
    ensures Next(c, a).h.removed == c.h.removed && c.h.peeked.Some? ==> Next(c, a).h.peeked.Some?
  {
    hide Step, ConsumerSafe, ProducerSafe;
  }

  lemma {:induction false} PeekRun(c: Config, k: Setup, schedule: seq<Action>, n: nat)
    requires Inv(c, k) && HasQueue(c) && c.h.peeked.Some? && !c.s.c.CBusy? && c.s.c != CIdle(Empty)
    requires n <= |schedule|
    ensures var c' := After(c, schedule, n);
      && c.h.enqueued <= c'.h.enqueued && c.h.removed <= c'.h.removed
      && AbstractQueue(c) != []
      && (c'.h.removed != c.h.removed ==> c'.h.removed[|c.h.removed|] == AbstractQueue(c)[0])
      && (c'.h.removed == c.h.removed ==> c'.h.peeked.Some? && c'.s.c != CIdle(Empty))
  {
    hide Inv, HasQueue, AbstractQueue, Next;
    InvHasQueue(c, k);
    PeekPlace(c, k);
    RunKeeps(c, k, schedule, n);
    var c' := After(c, schedule, n);
    InvHasQueue(c', k);
    if n > 0 {
      var before := After(c, schedule, n - 1);
      PeekRun(c, k, schedule, n - 1);
      RunKeeps(c, k, schedule, n - 1);
      LogsGrow(before, schedule[n - 1]);
      if before.h.removed == c.h.removed { StillNotEmpty(before, k, schedule[n - 1]); }
    }
    if c'.h.removed != c.h.removed {
      var at := |c.h.removed|;
      assert c'.h.removed[at] == c'.h.enqueued[at] == c.h.enqueued[at] == AbstractQueue(c)[0];
    }
  }

  /** What a `peek` that finds an element leaves behind: the place it returns holds
      the live head of the queue, and the observer has noted it. */
  lemma PeekAnswer(c: Config, k: Setup)
    requires Inv(c, k) && c.s.c.CBusy?
    requires Next(c, StepConsumer).s.c.CIdle? && Next(c, StepConsumer).s.c.answer.Seen?
    ensures var c1 := Next(c, StepConsumer);
      var b, i := c1.s.c.answer.block, c1.s.c.answer.index;
      && Inv(c1, k) && HasQueue(c1) && c1.h.peeked.Some?
      && InBlock(c1.s.m, b, i) && AbstractQueue(c1) != []
      && c1.s.m.blocks[b].slots[i] == Slot(true, AbstractQueue(c1)[0])
  {
    hide Inv, HasQueue, AbstractQueue, Next, InBlock;
    ConsumerStepCorrect(c, k);
    var c1 := Next(c, StepConsumer);
    InvHasQueue(c1, k);
    PeekPlace(c1, k);
  }

  /** After a `peek` that found an element, and whatever the threads do then: the
      next element removed is the one peeked at, and until then neither
      `try_dequeue` nor `pop` answers that the queue is empty. */
  lemma PeekThenRemove(c: Config, maxSize: nat, maxBlock: nat, schedule: seq<Action>, n: nat)
    requires Reachable(c, maxSize, maxBlock) && n <= |schedule|
    requires c.s.c.CBusy? && Next(c, StepConsumer).s.c.CIdle? && Next(c, StepConsumer).s.c.answer.Seen?
    ensures var c1 := Next(c, StepConsumer); var c2 := After(c1, schedule, n);
      var b, i := c1.s.c.answer.block, c1.s.c.answer.index;
      && InBlock(c1.s.m, b, i) && c1.s.m.blocks[b].slots[i].live
      && c1.h.removed <= c2.h.removed
      && (c2.h.removed != c1.h.removed ==> c2.h.removed[|c1.h.removed|] == c1.s.m.blocks[b].slots[i].val)
      && (c2.h.removed == c1.h.removed ==> c2.s.c != CIdle(Empty))
  {
    var k := ReachableInv(c, maxSize, maxBlock);
    hide Inv, HasQueue, AbstractQueue, Next, After, Reachable, InBlock;
    PeekAnswer(c, k);
    PeekRun(Next(c, StepConsumer), k, schedule, n);
  }

  lemma StillNotEmpty(c: Config, k: Setup, a: Action)
    requires Inv(c, k) && c.h.peeked.Some? && c.s.c != CIdle(Empty)
    ensures Next(c, a).s.c != CIdle(Empty)
  {
    hide Inv, Next;
    PeekNotEmpty(c, k);
    if AnsweredEmpty(Next(c, a)) { IntoAnsweredEmpty(c, a); }
  }

  /** The consumer running `pop` where it runs `try_dequeue`. */
  function AsPop(c: Consumer): Consumer {
    match c
    case CBusy(TryDequeue, Move(fb, bf)) => CBusy(Pop, Destroy(fb, bf, None))
    case CBusy(TryDequeue, Destroy(fb, bf, _)) => CBusy(Pop, Destroy(fb, bf, None))
    case CBusy(TryDequeue, at) => CBusy(Pop, at)
    case CIdle(Taken(_)) => CIdle(Dropped)
    case _ => c
  }

  lemma PopStep(s: State)
    requires s.c.CBusy? && s.c.op == TryDequeue && ConsumerSafe(s.m, s.c.at)
    requires !Step(s, StepConsumer).c.CFault?
    requires match s.c.at
      case Destroy(fb, bf, moved) => moved.Some? ==> moved.value == s.m.blocks[fb].slots[bf].val
      case _ => true
    ensures var t := s.(c := AsPop(s.c)); var s' := Step(s, StepConsumer);
      if s.c.at.Move? then s'.(c := AsPop(s'.c)) == t
      else Step(t, StepConsumer) == s'.(c := AsPop(s'.c))
  {
    hide MaskInc;
  }

  /** `pop` is `try_dequeue` with the result dropped: step by step it does the same
      to memory, except that it omits the move out of the element, which changes
      nothing. */
  lemma PopDropsResult(c: Config, maxSize: nat, maxBlock: nat)
    requires Reachable(c, maxSize, maxBlock) && c.s.c.CBusy? && c.s.c.op == TryDequeue
    ensures var s := c.s; var t := s.(c := AsPop(s.c)); var s' := Step(s, StepConsumer);
      if s.c.at.Move? then s'.(c := AsPop(s'.c)) == t
      else Step(t, StepConsumer) == s'.(c := AsPop(s'.c))
  {
    var k := ReachableInv(c, maxSize, maxBlock);
    hide Inv, Reachable, Step;
    ConsumerIsSafe(c, k);
    NoConsumerFault(c, k);
    MovedIsOriginal(c, k);
    PopStep(c.s);
  }

  lemma MovedIsOriginal(c: Config, k: Setup)
    requires Inv(c, k) && c.s.c.CBusy? && ConsumerSafe(c.s.m, c.s.c.at)
    ensures match c.s.c.at
      case Destroy(fb, bf, moved) => moved.Some? ==> moved.value == c.s.m.blocks[fb].slots[bf].val
      case _ => true
  {
    hide RingInv, Queue, Usable, Roomy, Linked, SizesOk, RoomOk, ProducerKnows, PeekOk, View;
    Places(c, k);
  }

  lemma NoConsumerFault(c: Config, k: Setup)
    requires Inv(c, k) && c.s.c.CBusy?
    ensures !Step(c.s, StepConsumer).c.CFault?
  {
    hide Inv, RingInv, Queue, Usable, Roomy, Linked, SizesOk, RoomOk, ProducerKnows, PeekOk, View;
    hide ConsumerEffect, Step, Observe;
    ConsumerStepCorrect(c, k);
    InvParts(Next(c, StepConsumer), k);
  }
}
