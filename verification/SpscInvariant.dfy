/** The invariant of the concurrent queue. */
module SpscInvariant {
  import opened Elements
  import opened Words
  import opened Blocks
  import opened Rings
  import opened Spsc

  /** What is fixed at construction: the number of elements asked for, the size of
      the first blocks, and the total room they give. */
  datatype Setup = Setup(maxSize: int, firstSize: int, firstUsable: int)

  /** A block that is made but not yet spliced into the ring. */
  predicate HasSpare(p: Producer) {
    p.PBusy? && (p.at.Init? || p.at.Link? || p.at.Splice?)
  }

  /** `ring` lists the blocks by following `next` from `frontBlock`, each block
      once, and comes back to `frontBlock`; `tailBlock` is number `ti`. */
  ghost predicate Linked(m: Memory, ring: seq<int>, ti: int, spare: bool) {
    && |m.next| == |m.blocks| == |ring| + (if spare then 1 else 0)
    && 0 <= ti < |ring|
    && (forall i :: 0 <= i < |ring| ==> 0 <= ring[i] < |m.blocks|)
    && (spare ==> forall i :: 0 <= i < |ring| ==> ring[i] < |m.blocks| - 1)
    && (forall i, j :: 0 <= i < j < |ring| ==> ring[i] != ring[j])
    && (forall i :: 0 <= i < |ring| ==> m.next[ring[i]] == ring[Inc(i, |ring|)])
    && m.frontBlock == ring[0] && m.tailBlock == ring[ti]
  }

  /** The blocks in ring order. */
  ghost function View(blocks: seq<Block>, ring: seq<int>): (vs: seq<Block>)
    requires forall i :: 0 <= i < |ring| ==> 0 <= ring[i] < |blocks|
    ensures |vs| == |ring|
    ensures forall i :: 0 <= i < |ring| ==> vs[i] == blocks[ring[i]]
  {
    seq(|ring|, i requires 0 <= i < |ring| => blocks[ring[i]])
  }

  function PhaseOf(p: Producer): Phase {
    if !p.PBusy? then Quiet
    else match p.at
      case StoreTail(_, _) => InTail
      case NextStoreTail(_, _) => InNext
      case StoreTailBlock(_) => NextReady
      case _ => Quiet
  }

  function HoleOf(c: Consumer): bool {
    c.CBusy? && c.at.StoreFront?
  }

  /** Block sizes: no block is smaller than the first ones, none is larger than
      the last one, which is at most twice MAX_BLOCK_SIZE. */
  ghost predicate SizesOk(m: Memory, k: Setup) {
    && m.maxBlock >= 2 && IsPow2(m.maxBlock) && IsPow2(m.largest)
    && 2 <= k.firstSize <= m.largest <= 2 * m.maxBlock
    && (forall b :: 0 <= b < |m.blocks| ==> k.firstSize <= |m.blocks[b].slots| <= m.largest)
  }

  /** The capacity guarantee and the memory bound at the moment the producer last
      found the tail block full, if no block was free then. */
  ghost predicate NoRoomSeen(vs: seq<Block>, m: Memory, h: History, k: Setup) {
    h.lengthSeen >= k.maxSize && h.lengthSeen + m.largest - 1 >= Usable(vs)
  }

  /** A full tail block stays full unless the consumer has reached it. */
  ghost predicate TailFilled(vs: seq<Block>, ti: int)
    requires 0 <= ti < |vs|
  {
    ti > 0 ==> Full(vs[ti])
  }

  /** The free block after the tail block, as the producer has found it. */
  ghost predicate NextIs(vs: seq<Block>, ring: seq<int>, ti: int, nb: int)
    requires 0 <= ti < |vs| == |ring|
  {
    ti + 1 < |ring| && nb == ring[ti + 1] && TailFilled(vs, ti)
  }

  ghost predicate SlotAt(b: Block, i: int, v: Elem) {
    0 <= i < |b.slots| && b.slots[i] == Slot(true, v)
  }

  /** What the producer knows at each point. */
  ghost predicate ProducerKnows(p: Producer, m: Memory, h: History, vs: seq<Block>, k: Setup)
    requires 0 <= h.ti < |vs| == |h.ring| && |m.next| == |m.blocks|
  {
    !p.PFault? && (p.PBusy? ==>
      var ti := h.ti;
      var t := vs[ti];
      match p.at
      case Load => true
      case ReadFront(tb, bt, nbt) =>
        tb == h.ring[ti] && bt == t.tail && |t.slots| > 0 && nbt == MaskInc(bt, |t.slots|) == t.localFront
      case Construct(tb, bt, nbt) =>
        tb == h.ring[ti] && bt == t.tail && |t.slots| > 0 && nbt == MaskInc(bt, |t.slots|) != t.localFront
      case StoreTail(tb, nbt) =>
        && tb == h.ring[ti] && |t.slots| > 0 && nbt == MaskInc(t.tail, |t.slots|) != t.localFront
        && SlotAt(t, t.tail, p.v)
      case CheckNext(tb) =>
        tb == h.ring[ti] && TailFilled(vs, ti) && (ti + 1 == |vs| ==> NoRoomSeen(vs, m, h, k))
      case NextFront(tb) => tb == h.ring[ti] && ti + 1 < |vs| && TailFilled(vs, ti)
      case NextTail(nb, nf) =>
        NextIs(vs, h.ring, ti, nb) && nf == vs[ti + 1].front == vs[ti + 1].localFront
      case NextConstruct(nb, nt) =>
        && NextIs(vs, h.ring, ti, nb) && nt == vs[ti + 1].tail
        && vs[ti + 1].front == vs[ti + 1].localFront
      case NextStoreTail(nb, nt) =>
        && NextIs(vs, h.ring, ti, nb) && nt == vs[ti + 1].tail
        && vs[ti + 1].front == vs[ti + 1].localFront
        && SlotAt(vs[ti + 1], nt, p.v)
      case StoreTailBlock(nb) =>
        NextIs(vs, h.ring, ti, nb) && Count(vs[ti + 1]) == 1 && SlotAt(vs[ti + 1], vs[ti + 1].front, p.v)
      case Malloc(tb) =>
        tb == h.ring[ti] && TailFilled(vs, ti) && p.mode == CanAlloc && NoRoomSeen(vs, m, h, k)
      case Init(tb, nb) =>
        && tb == h.ring[ti] && TailFilled(vs, ti)
        && nb == |m.blocks| - 1 >= 0 && m.next[nb] == NULL
        && IndexOk(m.blocks[nb]) && SlotsOk(m.blocks[nb], false, false)
        && m.blocks[nb].front == m.blocks[nb].tail == m.blocks[nb].localFront == 0
      case Link(tb, nb) =>
        tb == h.ring[ti] && TailFilled(vs, ti) && Prepared(m, nb, p.v)
      case Splice(tb, nb) =>
        && tb == h.ring[ti] && TailFilled(vs, ti) && Prepared(m, nb, p.v)
        && m.next[nb] == h.ring[Inc(ti, |vs|)])
  }

  /** The new block holds the one element being enqueued. */
  ghost predicate Prepared(m: Memory, nb: int, v: Elem) {
    && nb == |m.blocks| - 1 >= 0
    && IndexOk(m.blocks[nb]) && SlotsOk(m.blocks[nb], false, false)
    && Count(m.blocks[nb]) == 1 && SlotAt(m.blocks[nb], m.blocks[nb].front, v)
  }

  /** The consumer has seen a non-empty front block, and it stays non-empty. */
  ghost predicate FrontFound(vs: seq<Block>, ring: seq<int>, fb: int, bf: nat)
    requires 0 < |vs| == |ring|
  {
    && fb == ring[0] && bf == vs[0].front
    && Dist(vs[0].front, vs[0].localTail, |vs[0].slots|) > 0
  }

  /** The front block is exhausted for good and there is another block to go to. */
  ghost predicate FrontExhausted(vs: seq<Block>, ti: int)
    requires 0 < |vs|
  {
    ti > 0 && Count(vs[0]) == 0
  }

  /** What the consumer knows at each point. */
  ghost predicate ConsumerKnows(c: Consumer, h: History, vs: seq<Block>)
    requires 0 <= h.ti < |vs| == |h.ring|
  {
    && !c.CFault?
    && (c.CBusy? ==> Fits(c.op, c.at))
    && (c.CBusy? ==>
      match c.at
      case CLoad => true
      case ReadTail(fb, bf) => fb == h.ring[0] && bf == vs[0].front == vs[0].localTail
      case ReadTailBlock(fb) =>
        fb == h.ring[0] && (h.ti > 0 || (h.sawEmpty && h.peeked.None?))
      case Reread => h.ti > 0
      case ReadNext(fb) => fb == h.ring[0] && FrontExhausted(vs, h.ti)
      case ReadNextTail(nb) => FrontExhausted(vs, h.ti) && nb == h.ring[1]
      case Advance(nb, nf) =>
        && FrontExhausted(vs, h.ti) && nb == h.ring[1] && nf == vs[1].front
        && Dist(vs[1].front, vs[1].localTail, |vs[1].slots|) > 0
      case Move(fb, bf) => FrontFound(vs, h.ring, fb, bf)
      case Destroy(fb, bf, moved) =>
        && FrontFound(vs, h.ring, fb, bf) && bf < |vs[0].slots|
        && (moved.Some? ==> moved.value == vs[0].slots[bf].val)
      case StoreFront(fb, bf, v) =>
        && FrontFound(vs, h.ring, fb, bf) && bf < |vs[0].slots|
        && v == vs[0].slots[bf].val)
  }

  /** The place of the head of the queue: the front of the front block, or, when
      that is exhausted, the front of the block after it. */
  ghost predicate HeadAt(vs: seq<Block>, ring: seq<int>, ti: int, b: int, i: nat)
    requires 0 <= ti < |vs| == |ring|
  {
    || (b == ring[0] && i == vs[0].front && Count(vs[0]) > 0)
    || (FrontExhausted(vs, ti) && b == ring[1] && i == vs[1].front)
  }

  ghost predicate PeekOk(h: History, vs: seq<Block>)
    requires 0 <= h.ti < |vs| == |h.ring|
  {
    h.peeked.Some? ==> HeadAt(vs, h.ring, h.ti, h.peeked.value.0, h.peeked.value.1)
  }

  ghost predicate RoomOk(m: Memory, h: History, vs: seq<Block>, spare: bool, k: Setup)
    requires |m.blocks| > 0
  {
    && Usable(m.blocks) == Usable(vs) + (if spare then Capacity(m.blocks[|m.blocks| - 1]) else 0)
    && (Usable(m.blocks) <= k.firstUsable || Usable(m.blocks) <= h.peak + 2 * (2 * m.maxBlock - 1))
    && h.lengthSeen <= h.peak && Length(h) <= h.peak
    && Roomy(|vs|, k.firstSize, k.maxSize)
  }

  /** The whole invariant. */
  ghost predicate Inv(c: Config, k: Setup) {
    var m, h := c.s.m, c.h;
    var spare := HasSpare(c.s.p);
    && Linked(m, h.ring, h.ti, spare)
    && SizesOk(m, k)
    && var vs := View(m.blocks, h.ring);
    && RingInv(vs, h.ti, PhaseOf(c.s.p), HoleOf(c.s.c))
    && h.enqueued == h.removed + Queue(vs, h.ti)
    && RoomOk(m, h, vs, spare, k)
    && ProducerKnows(c.s.p, m, h, vs, k)
    && ConsumerKnows(c.s.c, h, vs)
    && PeekOk(h, vs)
  }

  /** The invariant, taken apart. */
  lemma InvParts(c: Config, k: Setup)
    requires Inv(c, k)
    ensures Linked(c.s.m, c.h.ring, c.h.ti, HasSpare(c.s.p)) && SizesOk(c.s.m, k)
    ensures var vs := View(c.s.m.blocks, c.h.ring);
      && RingInv(vs, c.h.ti, PhaseOf(c.s.p), HoleOf(c.s.c))
      && ProducerKnows(c.s.p, c.s.m, c.h, vs, k)
      && ConsumerKnows(c.s.c, c.h, vs) && PeekOk(c.h, vs)
      && |c.s.m.blocks| > 0 && RoomOk(c.s.m, c.h, vs, HasSpare(c.s.p), k)
  {
  }

  ghost predicate HasQueue(c: Config) {
    Linked(c.s.m, c.h.ring, c.h.ti, HasSpare(c.s.p)) && BlocksOk(View(c.s.m.blocks, c.h.ring))
  }

  /** The abstract queue of a configuration. */
  ghost function AbstractQueue(c: Config): seq<Elem>
    requires HasQueue(c)
  {
    Queue(View(c.s.m.blocks, c.h.ring), c.h.ti)
  }

  /** The blocks a step may touch. */
  lemma Places(c: Config, k: Setup)
    requires Inv(c, k)
    ensures var vs, ti, ph, hole := View(c.s.m.blocks, c.h.ring), c.h.ti, PhaseOf(c.s.p), HoleOf(c.s.c);
      && 0 <= ti < |vs| == |c.h.ring| && BlocksOk(vs)
      && PlaceOk(vs[0], 0, ti, ph, hole) && PlaceOk(vs[ti], ti, ti, ph, hole)
      && (ti > 0 ==> PlaceOk(vs[1], 1, ti, ph, hole))
      && (ti + 1 < |vs| ==> PlaceOk(vs[ti + 1], ti + 1, ti, ph, hole))
    ensures forall i :: 0 <= i < |c.h.ring| ==> 0 <= c.h.ring[i] < |c.s.m.blocks|
    ensures |c.s.m.next| == |c.s.m.blocks|
    ensures c.s.m.frontBlock == c.h.ring[0] && c.s.m.tailBlock == c.h.ring[c.h.ti]
    ensures c.s.m.next[c.h.ring[c.h.ti]] == c.h.ring[Inc(c.h.ti, |c.h.ring|)]
    ensures c.h.ti + 1 < |c.h.ring| ==> c.h.ring[c.h.ti + 1] != c.h.ring[0]
    ensures c.h.ti > 0 ==> c.s.m.next[c.h.ring[0]] == c.h.ring[1]
    ensures c.h.ti > 0 <==> c.h.ring[0] != c.h.ring[c.h.ti]
    ensures c.h.lengthSeen <= c.h.peak && Length(c.h) <= c.h.peak
  {
    hide PlaceOk, Queue, Usable, Roomy, SizesOk, ProducerKnows, ConsumerKnows, PeekOk;
    var vs := View(c.s.m.blocks, c.h.ring);
    var ti, ph, hole := c.h.ti, PhaseOf(c.s.p), HoleOf(c.s.c);
    forall i | 0 <= i < |vs| ensures IndexOk(vs[i]) {
      assert PlaceOk(vs[i], i, ti, ph, hole);
      PlaceIndexOk(vs[i], i, ti, ph, hole);
    }
    if ti + 1 < |vs| { assert c.h.ring[0] != c.h.ring[ti + 1]; }
  }

  lemma PlaceIndexOk(b: Block, i: int, ti: int, ph: Phase, hole: bool)
    requires PlaceOk(b, i, ti, ph, hole)
    ensures IndexOk(b)
  {
  }

  // ---- Interference ----

  /** How a step of the producer may change what the consumer relies on. */
  ghost predicate ProducerFrame(vs: seq<Block>, h: History, vs': seq<Block>, h': History)
    requires 0 <= h.ti < |vs| == |h.ring| && 0 <= h'.ti < |vs'| == |h'.ring|
  {
    && h'.ring[0] == h.ring[0] && h.ti <= h'.ti
    && h'.sawEmpty == h.sawEmpty && h'.peeked == h.peeked && h'.removed == h.removed
    && vs'[0].front == vs[0].front && vs'[0].localTail == vs[0].localTail
    && |vs'[0].slots| == |vs[0].slots|
    && Count(vs[0]) <= Count(vs'[0])
    && (Count(vs[0]) > 0 && vs[0].front < |vs[0].slots| ==>
        vs'[0].slots[vs[0].front] == vs[0].slots[vs[0].front])
    && (h.ti > 0 ==>
        && h'.ring[1] == h.ring[1] && Count(vs'[0]) == Count(vs[0])
        && vs'[1].front == vs[1].front && vs'[1].localTail == vs[1].localTail
        && |vs'[1].slots| == |vs[1].slots|)
  }

  lemma ConsumerUndisturbed(c: Consumer, vs: seq<Block>, h: History, vs': seq<Block>, h': History)
    requires 0 <= h.ti < |vs| == |h.ring| && 0 <= h'.ti < |vs'| == |h'.ring|
    requires BlocksOk(vs) && BlocksOk(vs')
    requires ProducerFrame(vs, h, vs', h')
    requires ConsumerKnows(c, h, vs) && PeekOk(h, vs)
    ensures ConsumerKnows(c, h', vs') && PeekOk(h', vs')
  {
    assert IndexOk(vs[0]) && IndexOk(vs'[0]);
    assert h.ti > 0 ==> IndexOk(vs[1]) && IndexOk(vs'[1]);
  }

  /** How a step of the consumer may change what the producer relies on. */
  ghost predicate ConsumerFrame(m: Memory, vs: seq<Block>, h: History, m': Memory, vs': seq<Block>, h': History)
    requires 0 <= h.ti < |vs| == |h.ring| && 0 <= h'.ti < |vs'| == |h'.ring|
  {
    && |h'.ring| == |h.ring| && h'.ti <= h.ti && h'.ring[h'.ti] == h.ring[h.ti]
    && h'.enqueued == h.enqueued && h'.lengthSeen == h.lengthSeen && h'.peak == h.peak
    && m'.next == m.next && m'.largest == m.largest && m'.maxBlock == m.maxBlock
    && m'.tailBlock == m.tailBlock && |m'.blocks| == |m.blocks|
    && (h'.ti != h.ti ==> h'.ti + 1 < |h.ring|)
    && h'.ring[Inc(h'.ti, |h.ring|)] == h.ring[Inc(h.ti, |h.ring|)]
    && (h.ti + 1 < |vs| ==> vs'[h'.ti + 1] == vs[h.ti + 1])
    && vs'[h'.ti].tail == vs[h.ti].tail && vs'[h'.ti].localFront == vs[h.ti].localFront
    && |vs'[h'.ti].slots| == |vs[h.ti].slots|
    && (0 <= vs[h.ti].tail < |vs[h.ti].slots| && Count(vs[h.ti]) < Capacity(vs[h.ti]) ==>
        vs'[h'.ti].slots[vs[h.ti].tail] == vs[h.ti].slots[vs[h.ti].tail])
    && (h'.ti > 0 ==> Count(vs'[h'.ti]) == Count(vs[h.ti]))
    && Usable(vs') == Usable(vs)
  }

  lemma ProducerUndisturbed(p: Producer, m: Memory, vs: seq<Block>, h: History,
                            m': Memory, vs': seq<Block>, h': History, k: Setup)
    requires 0 <= h.ti < |vs| == |h.ring| && 0 <= h'.ti < |vs'| == |h'.ring|
    requires |m.next| == |m.blocks| && |m'.next| == |m'.blocks|
    requires BlocksOk(vs) && BlocksOk(vs')
    requires ConsumerFrame(m, vs, h, m', vs', h')
    requires HasSpare(p) ==> |m.blocks| > 0 && m'.blocks[|m.blocks| - 1] == m.blocks[|m.blocks| - 1]
    requires ProducerKnows(p, m, h, vs, k)
    ensures ProducerKnows(p, m', h', vs', k)
  {
    hide Usable, SlotsOk, IsPow2, Contents;
    assert IndexOk(vs[h.ti]) && IndexOk(vs'[h'.ti]);
  }
}
