/** Every step of the producer preserves the invariant, faults nowhere, and either
    leaves the abstract queue alone or appends its element. */
module SpscProducer {
  import opened Elements
  import opened Words
  import opened Blocks
  import opened Rings
  import opened Spsc
  import opened SpscInvariant

  /** Storing into one block of the ring. */
  lemma SetBlockOk(m: Memory, ring: seq<int>, ti: int, spare: bool, k: Setup, i: int, x: Block)
    requires Linked(m, ring, ti, spare) && SizesOk(m, k) && 0 <= i < |ring|
    requires |x.slots| == |m.blocks[ring[i]].slots|
    ensures Linked(SetBlock(m, ring[i], x), ring, ti, spare) && SizesOk(SetBlock(m, ring[i], x), k)
    ensures View(SetBlock(m, ring[i], x).blocks, ring) == View(m.blocks, ring)[i := x]
    ensures Usable(SetBlock(m, ring[i], x).blocks) == Usable(m.blocks)
    ensures Usable(View(m.blocks, ring)[i := x]) == Usable(View(m.blocks, ring))
    ensures spare ==> SetBlock(m, ring[i], x).blocks[|m.blocks| - 1] == m.blocks[|m.blocks| - 1]
  {
    var vs, vs' := View(m.blocks, ring), View(m.blocks[ring[i] := x], ring);
    assert vs' == vs[i := x] by {
      forall j | 0 <= j < |ring| ensures vs'[j] == vs[i := x][j] {
        if j < i { assert ring[j] != ring[i]; } else if i < j { assert ring[i] != ring[j]; }
      }
    }
    UsableSame(m.blocks, m.blocks[ring[i] := x]);
    UsableSame(vs, vs[i := x]);
  }

  /** A producer step preserves the invariant if it re-establishes the producer's
      part and keeps within the frame the consumer relies on. */
  lemma ProducerStepKeeps(c: Config, c': Config, k: Setup)
    requires Inv(c, k) && c'.s.c == c.s.c
    requires var spare := HasSpare(c'.s.p);
      && Linked(c'.s.m, c'.h.ring, c'.h.ti, spare) && SizesOk(c'.s.m, k)
      && var vs' := View(c'.s.m.blocks, c'.h.ring);
      && RingInv(vs', c'.h.ti, PhaseOf(c'.s.p), HoleOf(c.s.c))
      && c'.h.enqueued == c'.h.removed + Queue(vs', c'.h.ti)
      && RoomOk(c'.s.m, c'.h, vs', spare, k)
      && ProducerKnows(c'.s.p, c'.s.m, c'.h, vs', k)
      && ProducerFrame(View(c.s.m.blocks, c.h.ring), c.h, vs', c'.h)
    ensures Inv(c', k)
  {
    ConsumerUndisturbed(c.s.c, View(c.s.m.blocks, c.h.ring), c.h, View(c'.s.m.blocks, c'.h.ring), c'.h);
  }

  /** What the consumer relies on in block `i` when the producer replaces it. */
  ghost predicate BlockFrame(vs: seq<Block>, ti: int, i: int, x: Block)
    requires 0 <= i < |vs|
  {
    && x.front == vs[i].front && x.localTail == vs[i].localTail && |x.slots| == |vs[i].slots|
    && (i == 0 ==>
        && Count(vs[0]) <= Count(x) && (ti > 0 ==> Count(x) == Count(vs[0]))
        && (Count(vs[0]) > 0 && vs[0].front < |vs[0].slots| ==> x.slots[vs[0].front] == vs[0].slots[vs[0].front]))
  }

  /** A producer step that stores into block `i` of the ring and nothing else. */
  lemma BlockStepKeeps(c: Config, c': Config, k: Setup, i: int, x: Block)
    requires Inv(c, k) && !HasSpare(c.s.p) && !HasSpare(c'.s.p)
    requires 0 <= i < |c.h.ring| && |x.slots| == |c.s.m.blocks[c.h.ring[i]].slots|
    requires c'.s.c == c.s.c && c'.s.m == SetBlock(c.s.m, c.h.ring[i], x)
    requires c'.h.ring == c.h.ring && c'.h.ti == c.h.ti && c'.h.removed == c.h.removed
    requires c'.h.sawEmpty == c.h.sawEmpty && c'.h.peeked == c.h.peeked
    requires c'.h.peak >= c.h.peak && c'.h.lengthSeen <= c'.h.peak && Length(c'.h) <= c'.h.peak
    requires var ws := View(c.s.m.blocks, c.h.ring)[i := x];
      && RingInv(ws, c.h.ti, PhaseOf(c'.s.p), HoleOf(c.s.c))
      && c'.h.enqueued == c'.h.removed + Queue(ws, c.h.ti)
      && ProducerKnows(c'.s.p, c'.s.m, c'.h, ws, k)
      && BlockFrame(View(c.s.m.blocks, c.h.ring), c.h.ti, i, x)
    ensures Inv(c', k)
    ensures View(c'.s.m.blocks, c'.h.ring) == View(c.s.m.blocks, c.h.ring)[i := x]
  {
    hide RingInv, Queue, Usable, Roomy, Linked, SizesOk, ProducerKnows, ConsumerKnows, PeekOk, View;
    Places(c, k);
    SetBlockOk(c.s.m, c.h.ring, c.h.ti, false, k, i, x);
    ProducerStepKeeps(c, c', k);
  }

  ghost predicate At(c: Config, k: Setup) {
    Inv(c, k) && c.s.p.PBusy? && ProducerSafe(c.s.m, c.s.p.at)
  }

  /** What a step of the producer may do. It returns true exactly when it
      publishes; it refuses only when the queue held `maxSize` elements at its last
      load of `front`, and `enqueue` fails only for want of memory. */
  ghost predicate ProducerEffect(c: Config, c': Config, ok: bool, k: Setup)
    requires Inv(c, k) && Inv(c', k) && c.s.p.PBusy?
  {
    && c'.h.removed == c.h.removed && c'.s.c == c.s.c
    && (if c'.s.p == PIdle(Accepted)
        then AbstractQueue(c') == AbstractQueue(c) + [c.s.p.v] && c'.h.enqueued == c.h.enqueued + [c.s.p.v]
        else AbstractQueue(c') == AbstractQueue(c) && c'.h.enqueued == c.h.enqueued)
    && (c'.s.p == PIdle(Refused) ==> c.s.p.mode == CannotAlloc && c.h.lengthSeen >= k.maxSize)
    && (c'.s.p == PIdle(OutOfMemory) ==>
        c.s.p.mode == CanAlloc && !ok && c.s.p.at.Malloc? && c.h.lengthSeen >= k.maxSize)
    && (c'.s.m.largest >= c.s.m.largest)
    && (|c'.s.m.blocks| > |c.s.m.blocks| ==> c.s.p.mode == CanAlloc && c.h.lengthSeen >= k.maxSize)
    && (c'.s.p.PBusy? ==> c'.s.p.v == c.s.p.v && c'.s.p.mode == c.s.p.mode)
    && (c'.s.p.PIdle? ==> c'.s.p.answer != NotCalled)
  }

  lemma LoadStep(c: Config, k: Setup, ok: bool, bytes: Elem)
    requires At(c, k) && c.s.p.at.Load?
    ensures Inv(Next(c, StepProducer(ok, bytes)), k)
    ensures ProducerEffect(c, Next(c, StepProducer(ok, bytes)), ok, k)
  {
    hide RingInv, SlotsOk, Queue, Usable, Roomy, Linked, SizesOk, ConsumerKnows, HeadAt, IsPow2, PeekOk, View;
    Places(c, k);
    ProducerStepKeeps(c, Next(c, StepProducer(ok, bytes)), k);
  }

  /** If the tail block turns out to be full and no block is free after it, the
      queue holds at least `maxSize` elements. */
  lemma FullTailSeen(c: Config, k: Setup, x: Block)
    requires At(c, k) && c.s.p.at.ReadFront?
    requires var vs, ti := View(c.s.m.blocks, c.h.ring), c.h.ti;
      && x == vs[ti].(localFront := vs[ti].front) && Full(x)
    ensures var vs, ti := View(c.s.m.blocks, c.h.ring), c.h.ti;
      && (ti + 1 == |vs| ==> Length(c.h) >= k.maxSize && Length(c.h) + c.s.m.largest - 1 >= Usable(vs[ti := x]))
  {
    hide ProducerKnows, ConsumerKnows, PeekOk, PlaceOk, Usable;
    var vs, ti := View(c.s.m.blocks, c.h.ring), c.h.ti;
    if ti + 1 == |vs| {
      NoFreeBlock(vs, ti, Quiet, HoleOf(c.s.c), k.firstSize, c.s.m.largest, k.maxSize);
      UsableSame(vs, vs[ti := x]);
    }
  }

  lemma ReadFrontStep(c: Config, k: Setup, ok: bool, bytes: Elem)
    requires At(c, k) && c.s.p.at.ReadFront?
    ensures Inv(Next(c, StepProducer(ok, bytes)), k)
    ensures ProducerEffect(c, Next(c, StepProducer(ok, bytes)), ok, k)
  {
    hide RingInv, SlotsOk, Queue, Usable, Roomy, Linked, SizesOk, ConsumerKnows, PeekOk, View, RoomOk, IsPow2;
    Places(c, k);
    var c' := Next(c, StepProducer(ok, bytes));
    var m, h, vs := c.s.m, c.h, View(c.s.m.blocks, c.h.ring);
    var ti, hole := h.ti, HoleOf(c.s.c);
    var x := vs[ti].(localFront := vs[ti].front);
    if c.s.p.at.nbt == vs[ti].front { FullTailSeen(c, k, x); }
    ShadowStep(vs, ti, Quiet, hole, ti, x);
    BlockStepKeeps(c, c', k, ti, x);
  }

  lemma ConstructStep(c: Config, k: Setup, ok: bool, bytes: Elem)
    requires At(c, k) && c.s.p.at.Construct?
    ensures Inv(Next(c, StepProducer(ok, bytes)), k)
    ensures ProducerEffect(c, Next(c, StepProducer(ok, bytes)), ok, k)
  {
    hide RingInv, SlotsOk, Queue, Usable, Roomy, Linked, SizesOk, ConsumerKnows, PeekOk, View, RoomOk, IsPow2;
    Places(c, k);
    var c' := Next(c, StepProducer(ok, bytes));
    var m, h, vs := c.s.m, c.h, View(c.s.m.blocks, c.h.ring);
    var ti, hole := h.ti, HoleOf(c.s.c);
    ConstructInTailStep(vs, ti, hole, c.s.p.v);
    BlockStepKeeps(c, c', k, ti, Constructed(vs[ti], c.s.p.v));
  }

  lemma StoreTailStep(c: Config, k: Setup, ok: bool, bytes: Elem)
    requires At(c, k) && c.s.p.at.StoreTail?
    ensures Inv(Next(c, StepProducer(ok, bytes)), k)
    ensures ProducerEffect(c, Next(c, StepProducer(ok, bytes)), ok, k)
  {
    hide RingInv, SlotsOk, Queue, Usable, Roomy, Linked, SizesOk, ConsumerKnows, PeekOk, View, RoomOk, IsPow2;
    Places(c, k);
    var c' := Next(c, StepProducer(ok, bytes));
    var m, h, vs := c.s.m, c.h, View(c.s.m.blocks, c.h.ring);
    var ti, hole := h.ti, HoleOf(c.s.c);
    TailStoreAppends(vs[ti], hole && ti == 0);
    PublishTailStep(vs, ti, hole);
    BlockStepKeeps(c, c', k, ti, TailStored(vs[ti]));
  }

  lemma CheckNextStep(c: Config, k: Setup, ok: bool, bytes: Elem)
    requires At(c, k) && c.s.p.at.CheckNext?
    ensures Inv(Next(c, StepProducer(ok, bytes)), k)
    ensures ProducerEffect(c, Next(c, StepProducer(ok, bytes)), ok, k)
  {
    hide RingInv, SlotsOk, Queue, Usable, Roomy, Linked, SizesOk, ConsumerKnows, HeadAt, IsPow2, PeekOk, View;
    Places(c, k);
    ProducerStepKeeps(c, Next(c, StepProducer(ok, bytes)), k);
  }

  lemma NextFrontStep(c: Config, k: Setup, ok: bool, bytes: Elem)
    requires At(c, k) && c.s.p.at.NextFront?
    ensures Inv(Next(c, StepProducer(ok, bytes)), k)
    ensures ProducerEffect(c, Next(c, StepProducer(ok, bytes)), ok, k)
  {
    hide RingInv, SlotsOk, Queue, Usable, Roomy, Linked, SizesOk, ConsumerKnows, PeekOk, View, RoomOk, IsPow2;
    Places(c, k);
    var c' := Next(c, StepProducer(ok, bytes));
    var m, h, vs := c.s.m, c.h, View(c.s.m.blocks, c.h.ring);
    var ti, hole := h.ti, HoleOf(c.s.c);
    var x := vs[ti + 1].(localFront := vs[ti + 1].front);
    ShadowStep(vs, ti, Quiet, hole, ti + 1, x);
    BlockStepKeeps(c, c', k, ti + 1, x);
  }

  lemma NextTailStep(c: Config, k: Setup, ok: bool, bytes: Elem)
    requires At(c, k) && c.s.p.at.NextTail?
    ensures Inv(Next(c, StepProducer(ok, bytes)), k)
    ensures ProducerEffect(c, Next(c, StepProducer(ok, bytes)), ok, k)
  {
    hide RingInv, SlotsOk, Queue, Usable, Roomy, Linked, SizesOk, ConsumerKnows, PeekOk, View, RoomOk, IsPow2;
    Places(c, k);
    var c' := Next(c, StepProducer(ok, bytes));
    var m, h, vs := c.s.m, c.h, View(c.s.m.blocks, c.h.ring);
    var ti, hole := h.ti, HoleOf(c.s.c);
    assert vs[ti + 1 := vs[ti + 1]] == vs;
    BlockStepKeeps(c, c', k, ti + 1, vs[ti + 1]);
  }

  lemma NextConstructStep(c: Config, k: Setup, ok: bool, bytes: Elem)
    requires At(c, k) && c.s.p.at.NextConstruct?
    ensures Inv(Next(c, StepProducer(ok, bytes)), k)
    ensures ProducerEffect(c, Next(c, StepProducer(ok, bytes)), ok, k)
  {
    hide RingInv, SlotsOk, Queue, Usable, Roomy, Linked, SizesOk, ConsumerKnows, PeekOk, View, RoomOk, IsPow2;
    Places(c, k);
    var c' := Next(c, StepProducer(ok, bytes));
    var m, h, vs := c.s.m, c.h, View(c.s.m.blocks, c.h.ring);
    var ti, hole := h.ti, HoleOf(c.s.c);
    ConstructInNextStep(vs, ti, hole, c.s.p.v);
    BlockStepKeeps(c, c', k, ti + 1, Constructed(vs[ti + 1], c.s.p.v));
  }

  lemma NextStoreTailStep(c: Config, k: Setup, ok: bool, bytes: Elem)
    requires At(c, k) && c.s.p.at.NextStoreTail?
    ensures Inv(Next(c, StepProducer(ok, bytes)), k)
    ensures ProducerEffect(c, Next(c, StepProducer(ok, bytes)), ok, k)
  {
    hide RingInv, SlotsOk, Queue, Usable, Roomy, Linked, SizesOk, ConsumerKnows, PeekOk, View, RoomOk, IsPow2;
    Places(c, k);
    var c' := Next(c, StepProducer(ok, bytes));
    var m, h, vs := c.s.m, c.h, View(c.s.m.blocks, c.h.ring);
    var ti, hole := h.ti, HoleOf(c.s.c);
    PublishNextStep(vs, ti, hole);
    BlockStepKeeps(c, c', k, ti + 1, TailStored(vs[ti + 1]));
  }

  /** A freshly made block. */
  lemma EmptyBlockOk(size: nat, bytes: Elem)
    requires size >= 2 && IsPow2(size)
    ensures IndexOk(EmptyBlock(size, bytes)) && SlotsOk(EmptyBlock(size, bytes), false, false)
    ensures Count(EmptyBlock(size, bytes)) == 0
  {
  }

  lemma NewSizeOk(m: Memory, k: Setup)
    requires SizesOk(m, k)
    ensures var size := GrownSize(m.largest, m.maxBlock);
      IsPow2(size) && 2 <= m.largest <= size <= 2 * m.maxBlock
  {
    GrownSizeOk(m.largest, m.maxBlock);
  }

  /** A new block is linked nowhere yet. */
  lemma MakeBlockOk(m: Memory, ring: seq<int>, ti: int, k: Setup, b: Block)
    requires Linked(m, ring, ti, false) && SizesOk(m, k)
    requires IsPow2(|b.slots|) && m.largest <= |b.slots| <= 2 * m.maxBlock
    ensures var m' := m.(blocks := m.blocks + [b], next := m.next + [NULL], largest := |b.slots|);
      && Linked(m', ring, ti, true) && SizesOk(m', k)
      && View(m'.blocks, ring) == View(m.blocks, ring)
      && Usable(m'.blocks) == Usable(m.blocks) + Capacity(b)
  {
    hide IsPow2;
    UsablePlus(m.blocks, [b]);
    assert View(m.blocks + [b], ring) == View(m.blocks, ring);
  }

  lemma MallocStep(c: Config, k: Setup, ok: bool, bytes: Elem)
    requires At(c, k) && c.s.p.at.Malloc?
    ensures Inv(Next(c, StepProducer(ok, bytes)), k)
    ensures ProducerEffect(c, Next(c, StepProducer(ok, bytes)), ok, k)
  {
    hide RingInv, SlotsOk, Queue, Usable, Roomy, Linked, SizesOk, ConsumerKnows, HeadAt, IsPow2, PeekOk, View;
    Places(c, k);
    var c' := Next(c, StepProducer(ok, bytes));
    var m, h := c.s.m, c.h;
    if ok {
      var size := GrownSize(m.largest, m.maxBlock);
      NewSizeOk(m, k);
      EmptyBlockOk(size, bytes);
      MakeBlockOk(m, h.ring, h.ti, k, EmptyBlock(size, bytes));
    }
    ProducerStepKeeps(c, c', k);
  }

  /** Storing into the block that is not yet in the ring. */
  lemma SetSpareOk(m: Memory, ring: seq<int>, ti: int, k: Setup, x: Block)
    requires Linked(m, ring, ti, true) && SizesOk(m, k)
    requires |x.slots| == |m.blocks[|m.blocks| - 1].slots|
    ensures var m' := SetBlock(m, |m.blocks| - 1, x);
      && Linked(m', ring, ti, true) && SizesOk(m', k)
      && View(m'.blocks, ring) == View(m.blocks, ring) && Usable(m'.blocks) == Usable(m.blocks)
  {
    var m' := SetBlock(m, |m.blocks| - 1, x);
    assert View(m'.blocks, ring) == View(m.blocks, ring);
    UsableSame(m.blocks, m'.blocks);
  }

  function Initialised(b: Block, v: Elem): Block
    requires |b.slots| > 0
  {
    b.(slots := b.slots[0 := Slot(true, v)], tail := 1, localTail := 1)
  }

  lemma InitialisedOk(b: Block, v: Elem)
    requires IndexOk(b) && SlotsOk(b, false, false) && b.front == b.tail == b.localFront == 0
    ensures !b.slots[0].live
    ensures var x := Initialised(b, v);
      IndexOk(x) && SlotsOk(x, false, false) && Count(x) == 1 && SlotAt(x, x.front, v)
  {
    assert Dist(b.front, 0, |b.slots|) == 0;
  }

  lemma InitStep(c: Config, k: Setup, ok: bool, bytes: Elem)
    requires At(c, k) && c.s.p.at.Init?
    ensures Inv(Next(c, StepProducer(ok, bytes)), k)
    ensures ProducerEffect(c, Next(c, StepProducer(ok, bytes)), ok, k)
  {
    hide RingInv, SlotsOk, Queue, Usable, Roomy, Linked, SizesOk, ConsumerKnows, HeadAt, IsPow2, PeekOk, View;
    hide IndexOk, PlaceOk;
    Places(c, k);
    var c' := Next(c, StepProducer(ok, bytes));
    var x := Initialised(c.s.m.blocks[c.s.p.at.nb], c.s.p.v);
    InitialisedOk(c.s.m.blocks[c.s.p.at.nb], c.s.p.v);
    SetSpareOk(c.s.m, c.h.ring, c.h.ti, k, x);
    ProducerStepKeeps(c, c', k);
  }

  lemma SetSpareNextOk(m: Memory, ring: seq<int>, ti: int, k: Setup, x: int)
    requires Linked(m, ring, ti, true) && SizesOk(m, k)
    ensures Linked(m.(next := m.next[|m.blocks| - 1 := x]), ring, ti, true)
    ensures SizesOk(m.(next := m.next[|m.blocks| - 1 := x]), k)
  {
  }

  lemma LinkStep(c: Config, k: Setup, ok: bool, bytes: Elem)
    requires At(c, k) && c.s.p.at.Link?
    ensures Inv(Next(c, StepProducer(ok, bytes)), k)
    ensures ProducerEffect(c, Next(c, StepProducer(ok, bytes)), ok, k)
  {
    hide RingInv, SlotsOk, Queue, Usable, Roomy, Linked, SizesOk, ConsumerKnows, HeadAt, IsPow2, PeekOk, View;
    Places(c, k);
    SetSpareNextOk(c.s.m, c.h.ring, c.h.ti, k, c.s.m.next[c.s.p.at.tb]);
    ProducerStepKeeps(c, Next(c, StepProducer(ok, bytes)), k);
  }

  /** The splice yields one cycle with exactly one more block, every other link
      unchanged. */
  lemma SpliceLinks(m: Memory, ring: seq<int>, ti: int, nb: int)
    requires Linked(m, ring, ti, true) && nb == |m.blocks| - 1
    requires m.next[nb] == ring[Inc(ti, |ring|)]
    ensures Linked(m.(next := m.next[ring[ti] := nb]), Spliced(ring, ti, nb), ti, false)
  {
    SplicedAt(ring, ti, nb);
    forall j | 0 <= j < |ring| && j != ti ensures ring[j] != ring[ti] {
      if j < ti { assert ring[j] != ring[ti]; } else { assert ring[ti] != ring[j]; }
    }
    SpliceCycle(m.next, ring, ti, nb);
    SpliceDistinct(ring, ti, nb);
  }

  lemma SpliceCycle(next: seq<int>, ring: seq<int>, ti: int, nb: int)
    requires 0 <= ti < |ring| && nb >= 0 && |next| == nb + 1 && next[nb] == ring[Inc(ti, |ring|)]
    requires forall j :: 0 <= j < |ring| ==> 0 <= ring[j] < nb && next[ring[j]] == ring[Inc(j, |ring|)]
    requires forall j :: 0 <= j < |ring| && j != ti ==> ring[j] != ring[ti]
    ensures var ring' := Spliced(ring, ti, nb);
      forall i :: 0 <= i < |ring'| ==>
        0 <= ring'[i] <= nb && next[ring[ti] := nb][ring'[i]] == ring'[Inc(i, |ring'|)]
  {
    var ring' := Spliced(ring, ti, nb);
    SplicedAt(ring, ti, nb);
    forall i | 0 <= i < |ring'|
      ensures 0 <= ring'[i] <= nb && next[ring[ti] := nb][ring'[i]] == ring'[Inc(i, |ring'|)]
    {
      SpliceNext(next, ring, ti, nb, i);
    }
  }

  lemma SpliceDistinct(ring: seq<int>, ti: int, nb: int)
    requires 0 <= ti < |ring| && forall i :: 0 <= i < |ring| ==> ring[i] < nb
    requires forall i, j :: 0 <= i < j < |ring| ==> ring[i] != ring[j]
    ensures var ring' := Spliced(ring, ti, nb); forall i, j :: 0 <= i < j < |ring'| ==> ring'[i] != ring'[j]
  {
    var ring' := Spliced(ring, ti, nb);
    SplicedAt(ring, ti, nb);
    forall i, j | 0 <= i < j < |ring'| ensures ring'[i] != ring'[j] {
      var i', j' := if i <= ti then i else i - 1, if j <= ti then j else j - 1;
      if i != ti + 1 && j != ti + 1 { assert ring[i'] != ring[j']; }
    }
  }

  lemma SpliceView(blocks: seq<Block>, ring: seq<int>, ti: int, nb: int)
    requires 0 <= ti < |ring| && 0 <= nb < |blocks|
    requires forall i :: 0 <= i < |ring| ==> 0 <= ring[i] < |blocks|
    ensures forall i :: 0 <= i <= |ring| ==> 0 <= Spliced(ring, ti, nb)[i] < |blocks|
    ensures View(blocks, Spliced(ring, ti, nb)) == Spliced(View(blocks, ring), ti, blocks[nb])
  {
    SplicedAt(ring, ti, nb);
    SplicedAt(View(blocks, ring), ti, blocks[nb]);
  }

  lemma SplicedAt<X>(r: seq<X>, ti: int, x: X)
    requires 0 <= ti < |r|
    ensures |Spliced(r, ti, x)| == |r| + 1
    ensures forall i :: 0 <= i <= |r| ==>
      Spliced(r, ti, x)[i] == if i <= ti then r[i] else if i == ti + 1 then x else r[i - 1]
  {
  }

  lemma SpliceNext(next: seq<int>, ring: seq<int>, ti: int, nb: int, i: int)
    requires 0 <= ti < |ring| && nb >= 0 && |next| == nb + 1
    requires forall j :: 0 <= j < |ring| ==> 0 <= ring[j] < nb && next[ring[j]] == ring[Inc(j, |ring|)]
    requires forall j :: 0 <= j < |ring| && j != ti ==> ring[j] != ring[ti]
    requires next[nb] == ring[Inc(ti, |ring|)] && 0 <= i <= |ring|
    ensures next[ring[ti] := nb][Spliced(ring, ti, nb)[i]] == Spliced(ring, ti, nb)[Inc(i, |ring| + 1)]
  {
    SplicedAt(ring, ti, nb);
    if i != ti && i != ti + 1 {
      var j := if i < ti then i else i - 1;
      assert Spliced(ring, ti, nb)[i] == ring[j];
      assert next[ring[ti] := nb][ring[j]] == next[ring[j]] == ring[Inc(j, |ring|)];
    }
  }

  lemma SpliceUsable(vs: seq<Block>, ti: int, b: Block)
    requires 0 <= ti < |vs|
    ensures Usable(Spliced(vs, ti, b)) == Usable(vs) + Capacity(b)
  {
    var front, back := vs[..ti + 1], vs[ti + 1..];
    assert Usable([b]) == Capacity(b);
    hide Usable, Capacity;
    UsablePlus(front, back);
    UsablePlus(front + [b], back);
    UsablePlus(front, [b]);
    assert front + back == vs;
  }

  lemma AdvanceTailLinks(m: Memory, ring: seq<int>, ti: int)
    requires Linked(m, ring, ti, false) && ti + 1 < |ring|
    ensures Linked(m.(tailBlock := ring[ti + 1]), ring, ti + 1, false)
  {
  }

  lemma SizesSame(m: Memory, m': Memory, k: Setup)
    requires SizesOk(m, k)
    requires m'.blocks == m.blocks && m'.largest == m.largest && m'.maxBlock == m.maxBlock
    ensures SizesOk(m', k) && 2 <= k.firstSize
  {
  }

  lemma SpliceKeepsInv(c: Config, k: Setup, ok: bool, bytes: Elem)
    requires At(c, k) && c.s.p.at.Splice?
    ensures Inv(Next(c, StepProducer(ok, bytes)), k)
  {
    hide RingInv, SlotsOk, Queue, Usable, Roomy, Linked, SizesOk, ConsumerKnows, HeadAt, IsPow2, PeekOk, View;
    hide IndexOk, PlaceOk, Count, Contents, Concat, Full, Capacity, MaskInc, SetBlock, ProducerFrame, NextIs;
    hide TailFilled, SlotAt, RoomOk;
    Places(c, k);
    var c' := Next(c, StepProducer(ok, bytes));
    var m, h, vs := c.s.m, c.h, View(c.s.m.blocks, c.h.ring);
    var ti, hole, nb := h.ti, HoleOf(c.s.c), c.s.p.at.nb;
    SpliceLinks(m, h.ring, ti, nb);
    SpliceView(m.blocks, h.ring, ti, nb);
    SizesSame(m, c'.s.m, k);
    SpliceStep(vs, ti, hole, m.blocks[nb]);
    SpliceRoom(m, c'.s.m, h, vs, nb, k);
    SpliceFrame(vs, h, m.blocks[nb], nb);
    SpliceKnows(vs, h.ring, ti, m.blocks[nb], nb, c.s.p.v);
    ProducerStepKeeps(c, c', k);
  }

  lemma SpliceStepKeeps(c: Config, k: Setup, ok: bool, bytes: Elem)
    requires At(c, k) && c.s.p.at.Splice?
    ensures Inv(Next(c, StepProducer(ok, bytes)), k)
    ensures ProducerEffect(c, Next(c, StepProducer(ok, bytes)), ok, k)
  {
    hide RingInv, SlotsOk, Queue, Usable, Roomy, Linked, SizesOk, ConsumerKnows, HeadAt, IsPow2, PeekOk, View;
    hide IndexOk, PlaceOk, Count, Contents, Concat, Full, Capacity, MaskInc, SetBlock, ProducerFrame, RoomOk;
    Places(c, k);
    SpliceKeepsInv(c, k, ok, bytes);
    var m, h, nb := c.s.m, c.h, c.s.p.at.nb;
    SpliceView(m.blocks, h.ring, h.ti, nb);
    SpliceStep(View(m.blocks, h.ring), h.ti, HoleOf(c.s.c), m.blocks[nb]);
  }

  lemma SpliceRoom(m: Memory, m': Memory, h: History, vs: seq<Block>, nb: int, k: Setup)
    requires 0 <= h.ti < |vs| == |h.ring| && 0 <= nb == |m.blocks| - 1
    requires m'.blocks == m.blocks && m'.maxBlock == m.maxBlock && 2 <= k.firstSize
    requires RoomOk(m, h, vs, true, k)
    ensures RoomOk(m', h.(ring := Spliced(h.ring, h.ti, nb)), Spliced(vs, h.ti, m.blocks[nb]), false, k)
  {
    hide Usable, Roomy, Capacity;
    SpliceUsable(vs, h.ti, m.blocks[nb]);
    RoomyGrows(|vs|, k.firstSize, k.maxSize);
  }

  lemma SpliceKnows(vs: seq<Block>, ring: seq<int>, ti: int, b: Block, nb: int, v: Elem)
    requires 0 <= ti < |vs| == |ring| && TailFilled(vs, ti) && Count(b) == 1 && SlotAt(b, b.front, v)
    ensures var ws, r := Spliced(vs, ti, b), Spliced(ring, ti, nb);
      && |ws| == |r| == |vs| + 1 && NextIs(ws, r, ti, nb)
      && Count(ws[ti + 1]) == 1 && SlotAt(ws[ti + 1], ws[ti + 1].front, v)
  {
    hide Count;
  }

  lemma SpliceFrame(vs: seq<Block>, h: History, b: Block, nb: int)
    requires 0 <= h.ti < |vs| == |h.ring|
    ensures |Spliced(vs, h.ti, b)| == |vs| + 1 && |Spliced(h.ring, h.ti, nb)| == |vs| + 1
    ensures ProducerFrame(vs, h, Spliced(vs, h.ti, b), h.(ring := Spliced(h.ring, h.ti, nb)))
  {
    hide Count;
  }

  lemma OnlyElement(b: Block, v: Elem)
    requires IndexOk(b) && Count(b) == 1 && SlotAt(b, b.front, v)
    ensures Contents(b) == [v]
  {
  }

  lemma StoreTailBlockStep(c: Config, k: Setup, ok: bool, bytes: Elem)
    requires At(c, k) && c.s.p.at.StoreTailBlock?
    ensures Inv(Next(c, StepProducer(ok, bytes)), k)
    ensures ProducerEffect(c, Next(c, StepProducer(ok, bytes)), ok, k)
  {
    hide RingInv, SlotsOk, Queue, Usable, Roomy, Linked, SizesOk, ConsumerKnows, HeadAt, IsPow2, PeekOk, View;
    hide IndexOk, PlaceOk, MaskInc, SetBlock, Full, Capacity;
    Places(c, k);
    var c' := Next(c, StepProducer(ok, bytes));
    var vs := View(c.s.m.blocks, c.h.ring);
    OnlyElement(vs[c.h.ti + 1], c.s.p.v);
    AdvanceTailStep(vs, c.h.ti, HoleOf(c.s.c));
    AdvanceTailLinks(c.s.m, c.h.ring, c.h.ti);
    SizesSame(c.s.m, c'.s.m, k);
    ProducerStepKeeps(c, c', k);
  }

  /** In every reachable configuration the producer's next step follows only valid
      pointers and indices. */
  lemma ProducerIsSafe(c: Config, k: Setup)
    requires Inv(c, k) && c.s.p.PBusy?
    ensures ProducerSafe(c.s.m, c.s.p.at)
  {
    var m, ring, ti := c.s.m, c.h.ring, c.h.ti;
    var vs := View(m.blocks, ring);
    assert PlaceOk(vs[ti], ti, ti, PhaseOf(c.s.p), HoleOf(c.s.c));
    assert m.next[ring[ti]] == ring[Inc(ti, |ring|)];
    if ti + 1 < |ring| {
      assert PlaceOk(vs[ti + 1], ti + 1, ti, PhaseOf(c.s.p), HoleOf(c.s.c));
    }
  }

  lemma ProducerStepCorrect(c: Config, k: Setup, ok: bool, bytes: Elem)
    requires Inv(c, k) && c.s.p.PBusy?
    ensures Inv(Next(c, StepProducer(ok, bytes)), k)
    ensures ProducerEffect(c, Next(c, StepProducer(ok, bytes)), ok, k)
  {
    ProducerIsSafe(c, k);
    match c.s.p.at
    case Load => LoadStep(c, k, ok, bytes);
    case ReadFront(_, _, _) => ReadFrontStep(c, k, ok, bytes);
    case Construct(_, _, _) => ConstructStep(c, k, ok, bytes);
    case StoreTail(_, _) => StoreTailStep(c, k, ok, bytes);
    case CheckNext(_) => CheckNextStep(c, k, ok, bytes);
    case NextFront(_) => NextFrontStep(c, k, ok, bytes);
    case NextTail(_, _) => NextTailStep(c, k, ok, bytes);
    case NextConstruct(_, _) => NextConstructStep(c, k, ok, bytes);
    case NextStoreTail(_, _) => NextStoreTailStep(c, k, ok, bytes);
    case Malloc(_) => MallocStep(c, k, ok, bytes);
    case Init(_, _) => InitStep(c, k, ok, bytes);
    case Link(_, _) => LinkStep(c, k, ok, bytes);
    case Splice(_, _) => SpliceStepKeeps(c, k, ok, bytes);
    case StoreTailBlock(_) => StoreTailBlockStep(c, k, ok, bytes);
  }
}
