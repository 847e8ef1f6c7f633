/** Every step of the consumer preserves the invariant, faults nowhere, and either
    leaves the abstract queue alone or removes its head. */
module SpscConsumer {
  import opened Elements
  import opened Words
  import opened Blocks
  import opened Rings
  import opened Spsc
  import opened SpscInvariant
  import opened SpscProducer

  /** A consumer step preserves the invariant if it re-establishes the consumer's
      part and keeps within the frame the producer relies on. */
  lemma ConsumerStepKeeps(c: Config, c': Config, k: Setup)
    requires Inv(c, k) && c'.s.p == c.s.p
    requires var spare := HasSpare(c.s.p);
      && Linked(c'.s.m, c'.h.ring, c'.h.ti, spare) && SizesOk(c'.s.m, k)
      && var vs' := View(c'.s.m.blocks, c'.h.ring);
      && RingInv(vs', c'.h.ti, PhaseOf(c.s.p), HoleOf(c'.s.c))
      && c'.h.enqueued == c'.h.removed + Queue(vs', c'.h.ti)
      && RoomOk(c'.s.m, c'.h, vs', spare, k)
      && ConsumerKnows(c'.s.c, c'.h, vs')
      && PeekOk(c'.h, vs')
      && ConsumerFrame(c.s.m, View(c.s.m.blocks, c.h.ring), c.h, c'.s.m, vs', c'.h)
      && (spare ==> c'.s.m.blocks[|c.s.m.blocks| - 1] == c.s.m.blocks[|c.s.m.blocks| - 1])
    ensures Inv(c', k)
  {
    hide RingInv, Queue, Usable, Roomy, SizesOk, RoomOk, ProducerKnows, ConsumerKnows, PeekOk, ConsumerFrame;
    hide View, Linked;
    Places(c, k);
    InvParts(c, k);
    LinkedParts(c'.s.m, c'.h.ring, c'.h.ti, HasSpare(c.s.p));
    RingInvBlocks(View(c'.s.m.blocks, c'.h.ring), c'.h.ti, PhaseOf(c.s.p), HoleOf(c'.s.c));
    ProducerUndisturbed(c.s.p, c.s.m, View(c.s.m.blocks, c.h.ring), c.h,
                        c'.s.m, View(c'.s.m.blocks, c'.h.ring), c'.h, k);
  }

  lemma LinkedParts(m: Memory, ring: seq<int>, ti: int, spare: bool)
    requires Linked(m, ring, ti, spare)
    ensures |m.next| == |m.blocks| && 0 <= ti < |ring| && (spare ==> |m.blocks| > 0)
    ensures forall i :: 0 <= i < |ring| ==> 0 <= ring[i] < |m.blocks|
  {
  }

  lemma RingInvBlocks(vs: seq<Block>, ti: int, ph: Phase, hole: bool)
    requires RingInv(vs, ti, ph, hole)
    ensures 0 <= ti < |vs| && BlocksOk(vs)
  {
  }

  ghost predicate At(c: Config, k: Setup) {
    Inv(c, k) && c.s.c.CBusy? && ConsumerSafe(c.s.m, c.s.c.at)
  }

  /** What a step of the consumer may do. It removes the head of the queue exactly
      when it answers a `try_dequeue` with that element, or a `pop`; it answers
      `Empty` only if the queue was empty at this call's load of `tail`, and never
      while a peeked element waits; `peek` answers with the place of the head. */
  ghost predicate ConsumerEffect(c: Config, c': Config, k: Setup)
    requires Inv(c, k) && Inv(c', k) && c.s.c.CBusy?
  {
    var q, q', op := AbstractQueue(c), AbstractQueue(c'), c.s.c.op;
    && c'.h.enqueued == c.h.enqueued && c'.s.p == c.s.p
    && (c'.s.c.CBusy? ==> c'.s.c.op == op)
    && match if c'.s.c.CIdle? then c'.s.c.answer else NoAnswer
       case Taken(v) => op == TryDequeue && q == [v] + q' && c'.h.removed == c.h.removed + [v]
       case Dropped => op == Pop && q != [] && q' == q[1..] && c'.h.removed == c.h.removed + [q[0]]
       case Empty => q' == q && c'.h.removed == c.h.removed && c.h.sawEmpty && c.h.peeked.None?
       case Seen(b, i) =>
         && op == Peek && q' == q && q != [] && c'.h.removed == c.h.removed
         && c'.h.peeked == Some((b, i))
         && InBlock(c.s.m, b, i) && c.s.m.blocks[b].slots[i] == Slot(true, q[0])
       case NoAnswer => c'.s.c.CBusy? && q' == q && c'.h.removed == c.h.removed
  }

  /** What the producer relies on in block `i` when the consumer replaces it. */
  ghost predicate BlockFrame(vs: seq<Block>, ti: int, i: int, x: Block)
    requires 0 <= i < |vs|
  {
    && i <= ti && x.tail == vs[i].tail && x.localFront == vs[i].localFront && |x.slots| == |vs[i].slots|
    && (i == ti ==>
        && (0 <= x.tail < |x.slots| && Count(vs[i]) < Capacity(vs[i]) ==> x.slots[x.tail] == vs[i].slots[x.tail])
        && (ti > 0 ==> Count(x) == Count(vs[i])))
  }

  /** A consumer step that stores into block `i` of the ring and nothing else. */
  lemma BlockStepKeeps(c: Config, c': Config, k: Setup, i: int, x: Block)
    requires Inv(c, k) && 0 <= i < |c.h.ring| && |x.slots| == |c.s.m.blocks[c.h.ring[i]].slots|
    requires c'.s.p == c.s.p && c'.s.m == SetBlock(c.s.m, c.h.ring[i], x)
    requires c'.h.ring == c.h.ring && c'.h.ti == c.h.ti && c'.h.enqueued == c.h.enqueued
    requires c'.h.lengthSeen == c.h.lengthSeen && c'.h.peak == c.h.peak && Length(c'.h) <= c.h.peak
    requires var ws := View(c.s.m.blocks, c.h.ring)[i := x];
      && RingInv(ws, c.h.ti, PhaseOf(c.s.p), HoleOf(c'.s.c))
      && c'.h.enqueued == c'.h.removed + Queue(ws, c.h.ti)
      && ConsumerKnows(c'.s.c, c'.h, ws)
      && PeekOk(c'.h, ws)
      && BlockFrame(View(c.s.m.blocks, c.h.ring), c.h.ti, i, x)
    ensures Inv(c', k)
    ensures View(c'.s.m.blocks, c'.h.ring) == View(c.s.m.blocks, c.h.ring)[i := x]
  {
    hide Count, Capacity, IndexOk, PlaceOk, RingInv, Queue, Usable, Roomy, Linked, SizesOk, ProducerKnows;
    hide ConsumerKnows, PeekOk, View;
    Places(c, k);
    SetBlockOk(c.s.m, c.h.ring, c.h.ti, HasSpare(c.s.p), k, i, x);
    ConsumerStepKeeps(c, c', k);
  }

  /** A consumer step that stores nowhere. */
  lemma LocalStepKeeps(c: Config, c': Config, k: Setup)
    requires Inv(c, k) && c'.s.p == c.s.p && c'.s.m == c.s.m
    requires c'.h == c.h.(peeked := c'.h.peeked) && HoleOf(c'.s.c) == HoleOf(c.s.c)
    requires var vs := View(c.s.m.blocks, c.h.ring);
      ConsumerKnows(c'.s.c, c'.h, vs) && PeekOk(c'.h, vs)
    ensures Inv(c', k) && AbstractQueue(c') == AbstractQueue(c)
  {
    hide RingInv, Queue, Usable, Roomy, Linked, SizesOk, ProducerKnows, ConsumerKnows, PeekOk, View, HoleOf;
    Places(c, k);
    ConsumerStepKeeps(c, c', k);
  }

  lemma CLoadStep(c: Config, k: Setup)
    requires At(c, k) && c.s.c.at.CLoad?
    ensures Inv(Next(c, StepConsumer), k)
    ensures ConsumerEffect(c, Next(c, StepConsumer), k)
  {
    hide StepDequeue, RingInv, SlotsOk, Queue, Usable, Roomy, Linked, SizesOk, ProducerKnows, IsPow2, View, RoomOk;
    Places(c, k);
    FrontIsHead(c, k);
    LocalStepKeeps(c, Next(c, StepConsumer), k);
  }

  /** If the front block is not empty, its front slot holds the head of the queue. */
  lemma FrontIsHead(c: Config, k: Setup)
    requires Inv(c, k) && !HoleOf(c.s.c)
    ensures var b, q := View(c.s.m.blocks, c.h.ring)[0], AbstractQueue(c);
      && (Count(b) > 0 ==> b.front < |b.slots| && q != [] && b.slots[b.front] == Slot(true, q[0]))
      && (q == [] <==> Count(b) == 0 && c.h.ti == 0)
  {
    hide Queue, Usable, Roomy, SizesOk, ProducerKnows, ConsumerKnows, PeekOk, RoomOk;
    var vs := View(c.s.m.blocks, c.h.ring);
    assert PlaceOk(vs[0], 0, c.h.ti, PhaseOf(c.s.p), false);
    QueueHead(vs, c.h.ti, PhaseOf(c.s.p), false);
    if Count(vs[0]) > 0 { DestroyKeeps(vs[0], ConstructedAt(c.h.ti, PhaseOf(c.s.p), 0)); }
  }

  lemma ReadTailStep(c: Config, k: Setup)
    requires At(c, k) && c.s.c.at.ReadTail?
    ensures Inv(Next(c, StepConsumer), k)
    ensures ConsumerEffect(c, Next(c, StepConsumer), k)
  {
    hide StepDequeue, RingInv, SlotsOk, Queue, Usable, Roomy, Linked, SizesOk, ProducerKnows, IsPow2, View;
    Places(c, k);
    FrontIsHead(c, k);
    var c' := Next(c, StepConsumer);
    var h, vs := c.h, View(c.s.m.blocks, c.h.ring);
    var x := vs[0].(localTail := vs[0].tail);
    ShadowStep(vs, h.ti, PhaseOf(c.s.p), false, 0, x);
    BlockStepKeeps(c, c', k, 0, x);
  }

  lemma ReadTailBlockStep(c: Config, k: Setup)
    requires At(c, k) && c.s.c.at.ReadTailBlock?
    ensures Inv(Next(c, StepConsumer), k)
    ensures ConsumerEffect(c, Next(c, StepConsumer), k)
  {
    hide StepDequeue, RingInv, SlotsOk, Queue, Usable, Roomy, Linked, SizesOk, ProducerKnows, IsPow2, View;
    Places(c, k);
    LocalStepKeeps(c, Next(c, StepConsumer), k);
  }

  lemma RereadStep(c: Config, k: Setup)
    requires At(c, k) && c.s.c.at.Reread?
    ensures Inv(Next(c, StepConsumer), k)
    ensures ConsumerEffect(c, Next(c, StepConsumer), k)
  {
    hide StepDequeue, RingInv, SlotsOk, Queue, Usable, Roomy, Linked, SizesOk, ProducerKnows, IsPow2, View;
    Places(c, k);
    FrontIsHead(c, k);
    var c' := Next(c, StepConsumer);
    var h, vs := c.h, View(c.s.m.blocks, c.h.ring);
    var x := vs[0].(localTail := vs[0].tail);
    ShadowStep(vs, h.ti, PhaseOf(c.s.p), false, 0, x);
    BlockStepKeeps(c, c', k, 0, x);
  }

  lemma ReadNextStep(c: Config, k: Setup)
    requires At(c, k) && c.s.c.at.ReadNext?
    ensures Inv(Next(c, StepConsumer), k)
    ensures ConsumerEffect(c, Next(c, StepConsumer), k)
  {
    hide StepDequeue, RingInv, SlotsOk, Queue, Usable, Roomy, Linked, SizesOk, ProducerKnows, IsPow2, View;
    Places(c, k);
    LocalStepKeeps(c, Next(c, StepConsumer), k);
  }

  /** When the front block is exhausted, the head of the queue is at the front of
      the next block. */
  lemma NextIsHead(c: Config, k: Setup)
    requires Inv(c, k) && !HoleOf(c.s.c)
    requires FrontExhausted(View(c.s.m.blocks, c.h.ring), c.h.ti)
    ensures var b, q := View(c.s.m.blocks, c.h.ring)[1], AbstractQueue(c);
      && Count(b) > 0 && b.front != b.tail
      && b.front < |b.slots| && q != [] && b.slots[b.front] == Slot(true, q[0])
  {
    hide Queue, Usable, Roomy, SizesOk, ProducerKnows, ConsumerKnows, PeekOk, RoomOk;
    var vs := View(c.s.m.blocks, c.h.ring);
    var ti, ph := c.h.ti, PhaseOf(c.s.p);
    AdvanceFrontStep(vs, ti, ph);
    QueueHead(Rotated(vs), ti - 1, ph, false);
    DestroyStep(Rotated(vs), ti - 1, ph);
  }

  lemma ReadNextTailStep(c: Config, k: Setup)
    requires At(c, k) && c.s.c.at.ReadNextTail?
    ensures Inv(Next(c, StepConsumer), k)
    ensures ConsumerEffect(c, Next(c, StepConsumer), k)
  {
    hide StepDequeue, RingInv, SlotsOk, Queue, Usable, Roomy, Linked, SizesOk, ProducerKnows, IsPow2, View;
    Places(c, k);
    NextIsHead(c, k);
    var c' := Next(c, StepConsumer);
    var h, vs := c.h, View(c.s.m.blocks, c.h.ring);
    if c.s.c.op == Peek {
      LocalStepKeeps(c, c', k);
    } else {
      var x := vs[1].(localTail := vs[1].tail);
      ShadowStep(vs, h.ti, PhaseOf(c.s.p), false, 1, x);
      BlockStepKeeps(c, c', k, 1, x);
    }
  }

  /** Advancing `frontBlock` turns the ring by one. */
  lemma AdvanceLinks(m: Memory, ring: seq<int>, ti: int, spare: bool)
    requires Linked(m, ring, ti, spare) && ti > 0
    ensures Linked(m.(frontBlock := ring[1]), Rotated(ring), ti - 1, spare)
  {
    var r, n := Rotated(ring), |ring|;
    forall i | 0 <= i < n ensures m.next[r[i]] == r[Inc(i, n)] {
      var j := Inc(i, n);
      assert r[i] == ring[j] && m.next[ring[j]] == ring[Inc(j, n)];
    }
    forall i, j | 0 <= i < j < n ensures r[i] != r[j] {
      if j + 1 < n { assert ring[i + 1] != ring[j + 1]; } else { assert ring[0] != ring[i + 1]; }
    }
  }

  lemma AdvanceView(blocks: seq<Block>, ring: seq<int>)
    requires 0 < |ring| && forall i :: 0 <= i < |ring| ==> 0 <= ring[i] < |blocks|
    ensures forall i :: 0 <= i < |ring| ==> 0 <= Rotated(ring)[i] < |blocks|
    ensures View(blocks, Rotated(ring)) == Rotated(View(blocks, ring))
    ensures Usable(Rotated(View(blocks, ring))) == Usable(View(blocks, ring))
  {
    var vs := View(blocks, ring);
    UsablePlus(vs[1..], [vs[0]]);
    assert Usable([vs[0]]) == Capacity(vs[0]);
  }

  lemma AdvanceFrame(m: Memory, vs: seq<Block>, h: History, m': Memory, h': History)
    requires 0 < h.ti < |vs| == |h.ring|
    requires m' == m.(frontBlock := h.ring[1])
    requires h' == h.(ring := Rotated(h.ring), ti := h.ti - 1)
    requires Usable(Rotated(vs)) == Usable(vs)
    ensures ConsumerFrame(m, vs, h, m', Rotated(vs), h')
  {
    hide Usable, Count;
  }

  lemma AdvanceStep(c: Config, k: Setup)
    requires At(c, k) && c.s.c.at.Advance?
    ensures Inv(Next(c, StepConsumer), k)
    ensures ConsumerEffect(c, Next(c, StepConsumer), k)
  {
    hide StepDequeue, ConsumerFrame, SlotAt, Full, Capacity, Contents, RingInv, SlotsOk, Queue, Usable, Roomy;
    hide Linked, SizesOk, ProducerKnows, IsPow2, View;
    Places(c, k);
    var c' := Next(c, StepConsumer);
    var h, vs := c.h, View(c.s.m.blocks, c.h.ring);
    AdvanceLinks(c.s.m, h.ring, h.ti, HasSpare(c.s.p));
    AdvanceView(c.s.m.blocks, h.ring);
    SizesSame(c.s.m, c'.s.m, k);
    AdvanceFrontStep(vs, h.ti, PhaseOf(c.s.p));
    AdvanceFrame(c.s.m, vs, h, c'.s.m, c'.h);
    ConsumerStepKeeps(c, c', k);
  }

  lemma MoveStep(c: Config, k: Setup)
    requires At(c, k) && c.s.c.at.Move?
    ensures Inv(Next(c, StepConsumer), k)
    ensures ConsumerEffect(c, Next(c, StepConsumer), k)
  {
    hide StepDequeue, RingInv, SlotsOk, Queue, Usable, Roomy, Linked, SizesOk, ProducerKnows, IsPow2, View;
    Places(c, k);
    FrontIsHead(c, k);
    LocalStepKeeps(c, Next(c, StepConsumer), k);
  }

  lemma DestroyStepKeeps(c: Config, k: Setup)
    requires At(c, k) && c.s.c.at.Destroy?
    ensures Inv(Next(c, StepConsumer), k)
    ensures ConsumerEffect(c, Next(c, StepConsumer), k)
  {
    hide StepDequeue, RingInv, SlotsOk, Queue, Usable, Roomy, Linked, SizesOk, ProducerKnows, IsPow2, View;
    Places(c, k);
    FrontIsHead(c, k);
    var c' := Next(c, StepConsumer);
    var vs := View(c.s.m.blocks, c.h.ring);
    DestroyStep(vs, c.h.ti, PhaseOf(c.s.p));
    BlockStepKeeps(c, c', k, 0, Destroyed(vs[0]));
  }

  lemma StoreFrontStep(c: Config, k: Setup)
    requires At(c, k) && c.s.c.at.StoreFront?
    ensures Inv(Next(c, StepConsumer), k)
    ensures ConsumerEffect(c, Next(c, StepConsumer), k)
  {
    hide StepDequeue, RingInv, SlotsOk, Queue, Usable, Roomy, Linked, SizesOk, ProducerKnows, IsPow2, View;
    Places(c, k);
    var c' := Next(c, StepConsumer);
    var vs := View(c.s.m.blocks, c.h.ring);
    QueueHead(vs, c.h.ti, PhaseOf(c.s.p), true);
    RemoveStep(vs, c.h.ti, PhaseOf(c.s.p));
    BlockStepKeeps(c, c', k, 0, FrontStored(vs[0]));
  }

  /** In every reachable configuration the consumer's next step follows only valid
      pointers and indices. */
  lemma ConsumerIsSafe(c: Config, k: Setup)
    requires Inv(c, k) && c.s.c.CBusy?
    ensures ConsumerSafe(c.s.m, c.s.c.at)
  {
    hide StepDequeue, RingInv, SlotsOk, Queue, Usable, Roomy, Linked, SizesOk, ProducerKnows, PeekOk, RoomOk, View;
    Places(c, k);
  }

  lemma ConsumerStepCorrect(c: Config, k: Setup)
    requires Inv(c, k) && c.s.c.CBusy?
    ensures Inv(Next(c, StepConsumer), k)
    ensures ConsumerEffect(c, Next(c, StepConsumer), k)
  {
    ConsumerIsSafe(c, k);
    hide Inv, ConsumerEffect, Next, ConsumerSafe;
    match c.s.c.at
    case CLoad => CLoadStep(c, k);
    case ReadTail(_, _) => ReadTailStep(c, k);
    case ReadTailBlock(_) => ReadTailBlockStep(c, k);
    case Reread => RereadStep(c, k);
    case ReadNext(_) => ReadNextStep(c, k);
    case ReadNextTail(_) => ReadNextTailStep(c, k);
    case Advance(_, _) => AdvanceStep(c, k);
    case Move(_, _) => MoveStep(c, k);
    case Destroy(_, _, _) => DestroyStepKeeps(c, k);
    case StoreFront(_, _, _) => StoreFrontStep(c, k);
  }
}
