/** The ring of blocks as a sequence of block values in ring order, starting at
    the front block. Pointer-free: the concurrent machine and the heap-level class
    both link their pointers to this view. */
module Rings {
  import opened Elements
  import opened Words
  import opened Blocks

  /** How far the producer is with its current enqueue. `InTail`: constructed in
      the tail block, not yet published. `InNext`: constructed in the block after
      it. `NextReady`: that block's `tail` is stored, `tailBlock` is not. */
  datatype Phase = Quiet | InTail | InNext | NextReady

  ghost predicate BlocksOk(vs: seq<Block>) {
    forall i :: 0 <= i < |vs| ==> IndexOk(vs[i])
  }

  ghost function Concat(vs: seq<Block>): seq<Elem>
    requires BlocksOk(vs)
  {
    if vs == [] then [] else Contents(vs[0]) + Concat(vs[1..])
  }

  /** What block `b`, number `i` of the ring, must look like when the tail block
      is number `ti`: strictly between the two ends blocks are full, a tail block
      that is not the front block is not empty, and everything past the tail is
      empty, except for the block about to become the tail. `hole` says that the
      consumer has destroyed the element at the front of the ring but not yet
      stored `front`. */
  ghost predicate PlaceOk(b: Block, i: int, ti: int, ph: Phase, hole: bool) {
    && IndexOk(b)
    && (0 < i < ti ==> Full(b))
    && (0 < i == ti ==> Count(b) > 0)
    && (i > ti ==> Count(b) == if ph == NextReady && i == ti + 1 then 1 else 0)
    && (i == 0 && hole ==> Count(b) > 0)
    && SlotsOk(b, ConstructedAt(ti, ph, i), hole && i == 0)
  }

  predicate ConstructedAt(ti: int, ph: Phase, i: int) {
    (ph == InTail && i == ti) || (ph == InNext && i == ti + 1)
  }

  /** The invariant of the ring. */
  ghost predicate RingInv(vs: seq<Block>, ti: int, ph: Phase, hole: bool) {
    && 0 <= ti < |vs|
    && (ph in {InNext, NextReady} ==> ti + 1 < |vs|)
    && (forall i :: 0 <= i < |vs| ==> PlaceOk(vs[i], i, ti, ph, hole))
  }

  /** The abstract queue: the blocks from the front block to the tail block. */
  ghost function Queue(vs: seq<Block>, ti: int): seq<Elem>
    requires 0 <= ti < |vs| && BlocksOk(vs)
  {
    Concat(vs[..ti + 1])
  }

  // ---- Concatenated contents ----

  lemma {:induction false} ConcatPlus(a: seq<Block>, b: seq<Block>)
    requires BlocksOk(a) && BlocksOk(b)
    ensures BlocksOk(a + b) && Concat(a + b) == Concat(a) + Concat(b)
  {
    hide IndexOk, Contents;
    if a == [] {
      assert a + b == b;
    } else {
      ConcatPlus(a[1..], b);
      assert (a + b)[1..] == a[1..] + b;
    }
  }

  lemma ConcatLast(vs: seq<Block>)
    requires BlocksOk(vs) && vs != []
    ensures Concat(vs) == Concat(vs[..|vs| - 1]) + Contents(vs[|vs| - 1])
  {
    hide IndexOk, Contents;
    var k := |vs| - 1;
    ConcatPlus(vs[..k], [vs[k]]);
    assert vs == vs[..k] + [vs[k]];
    assert Concat([vs[k]]) == Contents(vs[k]);
  }

  lemma {:induction false} ConcatSame(vs: seq<Block>, ws: seq<Block>)
    requires BlocksOk(vs) && BlocksOk(ws) && |vs| == |ws|
    requires forall i :: 0 <= i < |vs| ==> Contents(vs[i]) == Contents(ws[i])
    ensures Concat(vs) == Concat(ws)
  {
    hide IndexOk, Contents;
    if vs != [] { ConcatSame(vs[1..], ws[1..]); }
  }

  lemma {:induction false} ConcatNothing(vs: seq<Block>)
    requires BlocksOk(vs) && forall i :: 0 <= i < |vs| ==> Count(vs[i]) == 0
    ensures Concat(vs) == []
  {
    hide IndexOk;
    if vs != [] { ConcatNothing(vs[1..]); }
  }

  /** The abstract queue is the contents of the whole ring, less a block that is
      about to become the tail. */
  lemma QueueIsWholeRing(vs: seq<Block>, ti: int, ph: Phase, hole: bool)
    requires RingInv(vs, ti, ph, hole) && ph != NextReady
    ensures Concat(vs) == Queue(vs, ti)
  {
    hide IndexOk, Contents, SlotsOk, Concat;
    var rest := vs[ti + 1..];
    forall k | 0 <= k < |rest| ensures IndexOk(rest[k]) && Count(rest[k]) == 0 {
      assert PlaceOk(vs[ti + 1 + k], ti + 1 + k, ti, ph, hole);
    }
    ConcatNothing(rest);
    ConcatPlus(vs[..ti + 1], rest);
    assert vs == vs[..ti + 1] + rest;
  }

  /** A non-empty front block holds the head of the queue; an empty front block
      that is also the tail block means that the queue is empty. */
  lemma QueueHead(vs: seq<Block>, ti: int, ph: Phase, hole: bool)
    requires RingInv(vs, ti, ph, hole)
    ensures Count(vs[0]) > 0 ==> Queue(vs, ti) != [] && Queue(vs, ti)[0] == Contents(vs[0])[0]
    ensures Queue(vs, ti) == [] <==> Count(vs[0]) == 0 && ti == 0
  {
    hide IndexOk, Contents, SlotsOk, Full;
    var part := vs[..ti + 1];
    assert part[0] == vs[0];
    assert Concat(part) == Contents(vs[0]) + Concat(part[1..]);
    if ti > 0 {
      assert PlaceOk(vs[ti], ti, ti, ph, hole);
      ConcatLast(part);
      assert part[|part| - 1] == vs[ti];
    } else {
      assert part[1..] == [];
    }
  }

  // ---- Steps on the ring ----

  /** Replacing one block by one with the same contents. */
  lemma SameContents(vs: seq<Block>, ti: int, i: int, b: Block)
    requires 0 <= ti < |vs| && BlocksOk(vs) && 0 <= i < |vs|
    requires IndexOk(b) && Contents(b) == Contents(vs[i])
    ensures BlocksOk(vs[i := b]) && Queue(vs[i := b], ti) == Queue(vs, ti)
  {
    hide IndexOk, Contents, Concat;
    ConcatSame(vs[..ti + 1], vs[i := b][..ti + 1]);
  }

  /** Replacing block `i` while the phases change from `ph`, `hole` to `ph'`,
      `hole'` without any effect on the other blocks. */
  lemma Replaced(vs: seq<Block>, ti: int, ph: Phase, hole: bool, i: int, b: Block, ph': Phase, hole': bool)
    requires RingInv(vs, ti, ph, hole) && 0 <= i < |vs|
    requires PlaceOk(b, i, ti, ph', hole')
    requires hole == hole' || i == 0
    requires forall k :: k != i ==> ConstructedAt(ti, ph, k) == ConstructedAt(ti, ph', k)
    requires (ph == NextReady) == (ph' == NextReady) || i == ti + 1
    requires ph' in {InNext, NextReady} ==> ti + 1 < |vs|
    ensures RingInv(vs[i := b], ti, ph', hole')
  {
    hide IndexOk, SlotsOk, Full, Count;
    var ws := vs[i := b];
    forall k | 0 <= k < |ws| ensures PlaceOk(ws[k], k, ti, ph', hole') {
      if k != i {
        assert ConstructedAt(ti, ph, k) == ConstructedAt(ti, ph', k);
        assert PlaceOk(vs[k], k, ti, ph, hole);
      }
    }
  }

  /** Only a shadow index changes. */
  lemma ShadowStep(vs: seq<Block>, ti: int, ph: Phase, hole: bool, i: int, b: Block)
    requires RingInv(vs, ti, ph, hole) && 0 <= i < |vs|
    requires IndexOk(b) && b.front == vs[i].front && b.tail == vs[i].tail && b.slots == vs[i].slots
    ensures RingInv(vs[i := b], ti, ph, hole)
    ensures Queue(vs[i := b], ti) == Queue(vs, ti)
  {
    hide Queue, IsPow2;
    assert PlaceOk(vs[i], i, ti, ph, hole);
    assert Contents(b) == Contents(vs[i]);
    SameContents(vs, ti, i, b);
    Replaced(vs, ti, ph, hole, i, b, ph, hole);
  }

  /** The producer constructs its element in the tail block. */
  lemma ConstructInTailStep(vs: seq<Block>, ti: int, hole: bool, v: Elem)
    requires RingInv(vs, ti, Quiet, hole) && !Full(vs[ti])
    ensures !vs[ti].slots[vs[ti].tail].live
    ensures RingInv(vs[ti := Constructed(vs[ti], v)], ti, InTail, hole)
    ensures Queue(vs[ti := Constructed(vs[ti], v)], ti) == Queue(vs, ti)
  {
    hide SlotsOk, Queue, Contents, IsPow2;
    assert PlaceOk(vs[ti], ti, ti, Quiet, hole);
    ConstructKeeps(vs[ti], v, hole && ti == 0);
    SameContents(vs, ti, ti, Constructed(vs[ti], v));
    Replaced(vs, ti, Quiet, hole, ti, Constructed(vs[ti], v), InTail, hole);
  }

  /** The producer constructs its element in the free block after the tail block. */
  lemma ConstructInNextStep(vs: seq<Block>, ti: int, hole: bool, v: Elem)
    requires RingInv(vs, ti, Quiet, hole) && ti + 1 < |vs|
    ensures !vs[ti + 1].slots[vs[ti + 1].tail].live
    ensures RingInv(vs[ti + 1 := Constructed(vs[ti + 1], v)], ti, InNext, hole)
    ensures Queue(vs[ti + 1 := Constructed(vs[ti + 1], v)], ti) == Queue(vs, ti)
  {
    hide SlotsOk, Queue, Contents, IsPow2;
    assert PlaceOk(vs[ti + 1], ti + 1, ti, Quiet, hole);
    ConstructKeeps(vs[ti + 1], v, false);
    SameContents(vs, ti, ti + 1, Constructed(vs[ti + 1], v));
    Replaced(vs, ti, Quiet, hole, ti + 1, Constructed(vs[ti + 1], v), InNext, hole);
  }

  /** Storing `tail` of the tail block publishes the element. */
  lemma PublishTailStep(vs: seq<Block>, ti: int, hole: bool)
    requires RingInv(vs, ti, InTail, hole)
    requires Dist(vs[ti].localFront, vs[ti].tail, |vs[ti].slots|) < Capacity(vs[ti])
    ensures RingInv(vs[ti := TailStored(vs[ti])], ti, Quiet, hole)
    ensures Queue(vs[ti := TailStored(vs[ti])], ti) == Queue(vs, ti) + [vs[ti].slots[vs[ti].tail].val]
  {
    hide SlotsOk, Contents, Concat;
    assert PlaceOk(vs[ti], ti, ti, InTail, hole);
    TailStoreAppends(vs[ti], hole && ti == 0);
    Replaced(vs, ti, InTail, hole, ti, TailStored(vs[ti]), Quiet, hole);
    var ws := vs[ti := TailStored(vs[ti])];
    ConcatLast(vs[..ti + 1]);
    ConcatLast(ws[..ti + 1]);
    assert ws[..ti + 1][..ti] == vs[..ti + 1][..ti];
  }

  /** Storing `tail` of the block after the tail block publishes nothing yet. */
  lemma PublishNextStep(vs: seq<Block>, ti: int, hole: bool)
    requires RingInv(vs, ti, InNext, hole)
    requires vs[ti + 1].localFront == vs[ti + 1].front
    ensures RingInv(vs[ti + 1 := TailStored(vs[ti + 1])], ti, NextReady, hole)
    ensures Queue(vs[ti + 1 := TailStored(vs[ti + 1])], ti) == Queue(vs, ti)
    ensures PlaceOk(TailStored(vs[ti + 1]), ti + 1, ti, NextReady, hole)
    ensures Contents(TailStored(vs[ti + 1])) == [vs[ti + 1].slots[vs[ti + 1].tail].val]
  {
    assert PlaceOk(vs[ti + 1], ti + 1, ti, InNext, hole);
    TailStoreAppends(vs[ti + 1], false);
    Replaced(vs, ti, InNext, hole, ti + 1, TailStored(vs[ti + 1]), NextReady, hole);
    assert vs[ti + 1 := TailStored(vs[ti + 1])][..ti + 1] == vs[..ti + 1];
  }

  /** Storing `tailBlock` publishes the element that waits in the next block. */
  lemma AdvanceTailStep(vs: seq<Block>, ti: int, hole: bool)
    requires RingInv(vs, ti, NextReady, hole)
    requires ti > 0 ==> Full(vs[ti])
    ensures RingInv(vs, ti + 1, Quiet, hole)
    ensures Queue(vs, ti + 1) == Queue(vs, ti) + Contents(vs[ti + 1])
  {
    hide IndexOk, SlotsOk, Contents, Full;
    var to, quiet := ti + 1, Quiet;
    forall k | 0 <= k < |vs| ensures PlaceOk(vs[k], k, to, quiet, hole) {
      assert PlaceOk(vs[k], k, ti, NextReady, hole);
    }
    var part := vs[..ti + 2];
    ConcatLast(part);
    assert part[..ti + 1] == vs[..ti + 1];
  }

  /** Splicing a new block in after the tail block. */
  function Spliced<X>(vs: seq<X>, ti: int, b: X): seq<X>
    requires 0 <= ti < |vs|
  {
    vs[..ti + 1] + [b] + vs[ti + 1..]
  }

  lemma SpliceStep(vs: seq<Block>, ti: int, hole: bool, b: Block)
    requires RingInv(vs, ti, Quiet, hole)
    requires IndexOk(b) && SlotsOk(b, false, false) && Count(b) == 1
    ensures RingInv(Spliced(vs, ti, b), ti, NextReady, hole)
    ensures Queue(Spliced(vs, ti, b), ti) == Queue(vs, ti)
  {
    hide IndexOk, SlotsOk, Contents, Full;
    var ws := Spliced(vs, ti, b);
    forall k | 0 <= k < |ws| ensures PlaceOk(ws[k], k, ti, NextReady, hole) {
      if k <= ti {
        assert PlaceOk(vs[k], k, ti, Quiet, hole);
      } else if k > ti + 1 {
        assert ws[k] == vs[k - 1];
        assert PlaceOk(vs[k - 1], k - 1, ti, Quiet, hole);
      }
    }
    assert ws[..ti + 1] == vs[..ti + 1];
  }

  /** The consumer destroys the element at the front. */
  lemma DestroyStep(vs: seq<Block>, ti: int, ph: Phase)
    requires RingInv(vs, ti, ph, false) && Count(vs[0]) > 0
    ensures vs[0].slots[vs[0].front].live
    ensures Queue(vs, ti) != [] && vs[0].slots[vs[0].front].val == Queue(vs, ti)[0]
    ensures RingInv(vs[0 := Destroyed(vs[0])], ti, ph, true)
    ensures Queue(vs[0 := Destroyed(vs[0])], ti) == Queue(vs, ti)
  {
    hide SlotsOk, Queue, Contents, IsPow2;
    assert PlaceOk(vs[0], 0, ti, ph, false);
    DestroyKeeps(vs[0], ConstructedAt(ti, ph, 0));
    QueueHead(vs, ti, ph, false);
    SameContents(vs, ti, 0, Destroyed(vs[0]));
    Replaced(vs, ti, ph, false, 0, Destroyed(vs[0]), ph, true);
  }

  /** Storing `front` removes the head of the queue. */
  lemma RemoveStep(vs: seq<Block>, ti: int, ph: Phase)
    requires RingInv(vs, ti, ph, true)
    requires Dist(vs[0].front, vs[0].localTail, |vs[0].slots|) > 0
    ensures RingInv(vs[0 := FrontStored(vs[0])], ti, ph, false)
    ensures Queue(vs, ti) != []
    ensures Queue(vs[0 := FrontStored(vs[0])], ti) == Queue(vs, ti)[1..]
  {
    hide IndexOk, SlotsOk, Contents;
    assert PlaceOk(vs[0], 0, ti, ph, true);
    IndicesInRange(vs[0]);
    FrontStoreDrops(vs[0], ConstructedAt(ti, ph, 0));
    QueueHead(vs, ti, ph, true);
    Replaced(vs, ti, ph, true, 0, FrontStored(vs[0]), ph, false);
    var part, left := vs[..ti + 1], vs[0 := FrontStored(vs[0])][..ti + 1];
    assert part[1..] == left[1..];
    assert Concat(part) == Contents(vs[0]) + Concat(part[1..]);
    assert Concat(left) == Contents(FrontStored(vs[0])) + Concat(left[1..]);
  }

  /** The ring seen from the next block. */
  function Rotated<X>(vs: seq<X>): seq<X>
    requires |vs| > 0
  {
    vs[1..] + [vs[0]]
  }

  /** Advancing `frontBlock` past an empty front block leaves the queue as it is. */
  lemma AdvanceFrontStep(vs: seq<Block>, ti: int, ph: Phase)
    requires RingInv(vs, ti, ph, false) && ti > 0 && Count(vs[0]) == 0
    ensures RingInv(Rotated(vs), ti - 1, ph, false)
    ensures Queue(Rotated(vs), ti - 1) == Queue(vs, ti)
    ensures Count(Rotated(vs)[0]) > 0
  {
    hide SlotsOk, IsPow2;
    var ws, to := Rotated(vs), ti - 1;
    forall k | 0 <= k < |ws| ensures PlaceOk(ws[k], k, to, ph, false) {
      var o := if k + 1 < |vs| then k + 1 else 0;
      assert ws[k] == vs[o];
      assert PlaceOk(vs[o], o, ti, ph, false);
    }
    assert PlaceOk(vs[1], 1, ti, ph, false);
    var part := vs[..ti + 1];
    assert part[1..] == ws[..ti];
    assert Concat(part) == Contents(vs[0]) + Concat(part[1..]);
  }

  // ---- How much the ring holds ----

  /** The number of elements the blocks could hold together. */
  function Usable(vs: seq<Block>): int {
    if vs == [] then 0 else Capacity(vs[0]) + Usable(vs[1..])
  }

  lemma {:induction false} UsablePlus(a: seq<Block>, b: seq<Block>)
    ensures Usable(a + b) == Usable(a) + Usable(b)
  {
    if a == [] {
      assert a + b == b;
    } else {
      UsablePlus(a[1..], b);
      assert (a + b)[1..] == a[1..] + b;
    }
  }

  lemma {:induction false} UsableSame(vs: seq<Block>, ws: seq<Block>)
    requires |vs| == |ws| && forall i :: 0 <= i < |vs| ==> |vs[i].slots| == |ws[i].slots|
    ensures Usable(vs) == Usable(ws)
  {
    if vs != [] { UsableSame(vs[1..], ws[1..]); }
  }

  lemma {:induction false} FullConcat(vs: seq<Block>)
    requires BlocksOk(vs) && forall i :: 0 <= i < |vs| ==> Full(vs[i])
    ensures |Concat(vs)| == Usable(vs)
  {
    hide IndexOk;
    if vs != [] { FullConcat(vs[1..]); }
  }

  lemma {:induction false} UsableAtLeast(vs: seq<Block>, size: int)
    requires forall i :: 0 <= i < |vs| ==> size <= |vs[i].slots|
    ensures Usable(vs) >= |vs| * (size - 1)
  {
    if vs != [] {
      UsableAtLeast(vs[1..], size);
      assert |vs| * (size - 1) == (|vs| - 1) * (size - 1) + (size - 1);
    }
  }

  /** With `m` blocks of at least `size` slots each, is room for `maxSize` elements
      guaranteed whichever block the consumer is reading from? */
  predicate Roomy(m: int, size: int, maxSize: int) {
    if m == 1 then size - 1 >= maxSize else (m - 1) * (size - 1) >= maxSize
  }

  lemma RoomyGrows(m: int, size: int, maxSize: int)
    requires m >= 1 && size >= 2 && Roomy(m, size, maxSize)
    ensures Roomy(m + 1, size, maxSize)
  {
    assert m * (size - 1) == (m - 1) * (size - 1) + (size - 1);
    if m > 1 { assert (m - 1) * (size - 1) >= 0; }
  }

  /** When the tail block is full and the next block is the front block, the queue
      holds everything but what the front block may have left. */
  lemma NoFreeBlock(vs: seq<Block>, ti: int, ph: Phase, hole: bool, size: int, largest: int, maxSize: int)
    requires RingInv(vs, ti, ph, hole) && ti + 1 == |vs| && Full(vs[ti])
    requires forall i :: 0 <= i < |vs| ==> size <= |vs[i].slots| <= largest
    requires Roomy(|vs|, size, maxSize)
    ensures |Queue(vs, ti)| >= maxSize
    ensures |Queue(vs, ti)| + largest - 1 >= Usable(vs)
  {
    hide IndexOk, SlotsOk, Contents;
    var rest := vs[1..];
    assert vs[..ti + 1] == vs;
    assert PlaceOk(vs[0], 0, ti, ph, hole);
    if ti == 0 {
      FullConcat(vs);
      UsableAtLeast(vs, size);
    } else {
      forall i | 0 <= i < |rest| ensures Full(rest[i]) {
        assert PlaceOk(vs[i + 1], i + 1, ti, ph, hole);
      }
      FullConcat(rest);
      UsableAtLeast(rest, size);
    }
  }
}
