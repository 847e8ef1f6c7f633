/** The queue on the heap: real blocks, slot arrays and `next` pointers, one
    operation at a time. Every method is proved against the sequence of elements
    the queue holds. The comments give the lines of include/readerwriterqueue.h. */
module HeapQueue {
  import opened Elements
  import opened Words
  import R = Blocks
  import opened Rings
  import M = Spsc
  import T = SpscTheorems
  import P = SpscProducer

  class Block {
    var front: nat
    var localTail: nat
    var tail: nat
    var localFront: nat
    var next: Block?
    const data: array<R.Slot>

    /** `make_block` (613-626) and the constructor (599-602). */
    constructor (size: nat, bytes: Elem)
      ensures fresh(data) && data.Length == size && next == null
      ensures View() == M.EmptyBlock(size, bytes)
    {
      front, localTail, tail, localFront, next := 0, 0, 0, 0, null;
      data := new R.Slot[size](_ => R.Slot(false, bytes));
    }

    /** The block as a value. */
    ghost function View(): R.Block
      reads this, data
    {
      R.Block(front, localTail, tail, localFront, data[..])
    }

    /** With room for it, an element is constructed in a slot that holds no object, and
        the store of `tail` adds it behind the block's contents (455-459, 482-485). */
    method Append(v: Elem)
      requires R.IndexOk(View()) && R.SlotsOk(View(), false, false)
      requires R.Dist(localFront, tail, data.Length) < R.Capacity(View())
      modifies `tail, data
      ensures !old(View().slots[tail].live)
      ensures R.IndexOk(View()) && R.SlotsOk(View(), false, false)
      ensures R.Contents(View()) == old(R.Contents(View())) + [v]
      ensures View() == R.TailStored(R.Constructed(old(View()), v))
    {
      ghost var b := View();
      RoomLeft(b);
      R.ConstructKeeps(b, v, false);
      R.TailStoreAppends(R.Constructed(b, v), false);
      hide R.Contents, R.SlotsOk, IsPow2;
      data[tail] := R.Slot(true, v);
      tail := MaskInc(tail, data.Length);
      assert View() == R.TailStored(R.Constructed(b, v));
    }

    /** With an element in it as seen by the shadow index, the slot at `front` holds the
        block's first element; it is destroyed, and the store of `front` drops it from
        the contents (240-245, 284-289, 363-368, 397-402). */
    method Drop()
      requires R.IndexOk(View()) && R.SlotsOk(View(), false, false)
      requires R.Dist(front, localTail, data.Length) > 0
      modifies `front, data
      ensures old(R.Contents(View())) != []
      ensures old(View().slots[front]) == R.Slot(true, old(R.Contents(View()))[0])
      ensures R.IndexOk(View()) && R.SlotsOk(View(), false, false)
      ensures R.Contents(View()) == old(R.Contents(View()))[1..]
      ensures View() == R.FrontStored(R.Destroyed(old(View())))
    {
      ghost var b := View();
      R.DestroyKeeps(b, false);
      R.FrontStoreDrops(R.Destroyed(b), false);
      hide R.Contents, R.SlotsOk, IsPow2;
      data[front] := data[front].(live := false);
      front := MaskInc(front, data.Length);
      assert View() == R.FrontStored(R.Destroyed(b));
    }

    static lemma RoomLeft(b: R.Block)
      requires R.IndexOk(b) && R.Dist(b.localFront, b.tail, |b.slots|) < R.Capacity(b)
      ensures !R.Full(b) && R.Dist(b.localFront, b.tail, |b.slots|) < |b.slots| - 1
    {
    }

    /** The inner loop of the destructor (151-158): destroys the elements from
        `front` to `tail`, in order, each a live one. */
    method DestroyAll() returns (ghost dead: seq<Elem>)
      requires R.IndexOk(View()) && R.SlotsOk(View(), false, false)
      modifies data
      ensures dead == old(R.Contents(View()))
      ensures forall j :: 0 <= j < data.Length ==> !data[j].live
    {
      hide R.IndexOk, R.SlotsOk, R.Contents, R.Count, R.StepsFrom, R.Dist, MaskInc;
      ghost var b, k := View(), 0;
      var n := data.Length;
      var i := front;
      dead := [];
      Walked(b);
      while i != tail
        invariant 0 <= k <= R.Count(b) && i == R.StepsFrom(b.front, k, n)
        invariant dead == R.Contents(b)[..k]
        invariant forall j :: 0 <= j < n ==>
          data[j] == if 0 <= R.Dist(b.front, j, n) < k then b.slots[j].(live := false) else b.slots[j]
        decreases R.Count(b) - k
      {
        R.ElementAt(b, k, i);
        assert data[i].live;
        dead := dead + [data[i].val];
        data[i] := data[i].(live := false);
        i := MaskInc(i, n);
        k := k + 1;
      }
      R.ElementAt(b, k, i);
      forall j | 0 <= j < n ensures !data[j].live { R.LiveIsElement(b, j); }
    }

    static lemma Walked(b: R.Block)
      requires R.IndexOk(b)
      ensures R.Count(b) >= 0 && R.StepsFrom(b.front, 0, |b.slots|) == b.front
      ensures forall j :: 0 <= j < |b.slots| ==> R.Dist(b.front, j, |b.slots|) >= 0
    {
    }
  }

  lemma Word64()
    ensures IsPow2(8) && Pow2(64) == 2 * Pow2(63) && Pow2(63) == 2 * Pow2(62)
  {
    assert 8 == Pow2(3);
  }

  /** The argument of `ceilToPow2` at 92: `maxSize + 1`, unless that wraps to 0. */
  lemma WrappedIncrement(maxSize: nat)
    requires maxSize < Pow2(64)
    ensures maxSize + 1 < Pow2(64) ==> Wrap(maxSize + 1, 64) == maxSize + 1
    ensures maxSize + 1 == Pow2(64) ==> Wrap(maxSize + 1, 64) == 0
  {
    hide Pow2;
    WrapIsMod(maxSize + 1, 64);
    if maxSize + 1 == Pow2(64) { ModUnique(maxSize + 1, 1, Pow2(64), 0); }
  }

  /** The machine computation and the mathematical ceiling are the same number. */
  lemma CeilAgrees(x: nat, p: nat)
    requires LeastPow2AtLeast(p, x)
    ensures p == M.CeilPow2(x)
  {
    M.CeilPow2Least(x);
  }

  /** The loop of the constructor (102-119): one cycle through all blocks built so
      far. */
  method BuildRing(count: nat, size: nat, bytes: Elem) returns (first: Block, ghost blocks: seq<Block>)
    requires count > 0 && size > 0
    ensures |blocks| == count && blocks[0] == first
    ensures forall i :: 0 <= i < count ==>
      && fresh(blocks[i]) && fresh(blocks[i].data) && blocks[i].data.Length == size
      && blocks[i].View() == M.EmptyBlock(size, bytes)
      && blocks[i].next == blocks[Inc(i, count)]
    ensures forall i, j :: 0 <= i < j < count ==> blocks[i] != blocks[j] && blocks[i].data != blocks[j].data
  {
    var firstBlock: Block?, lastBlock: Block? := null, null;
    blocks := [];
    var i := 0;
    while i != count
      invariant 0 <= i <= count && |blocks| == i
      invariant i == 0 ==> firstBlock == null
      invariant i > 0 ==> firstBlock == blocks[0] && lastBlock == blocks[i - 1]
      invariant forall k :: 0 <= k < i ==>
        && fresh(blocks[k]) && fresh(blocks[k].data) && blocks[k].data.Length == size
        && blocks[k].View() == M.EmptyBlock(size, bytes)
        && blocks[k].next == blocks[Inc(k, i)]
      invariant forall k, j :: 0 <= k < j < i ==> blocks[k] != blocks[j] && blocks[k].data != blocks[j].data
    {
      var block := new Block(size, bytes);
      if firstBlock == null {
        firstBlock := block;
      } else {
        lastBlock.next := block;
      }
      lastBlock := block;
      block.next := firstBlock;
      blocks := blocks + [block];
      i := i + 1;
    }
    first := firstBlock;
  }

  class ReaderWriterQueue {
    var frontBlock: Block
    var tailBlock: Block
    var largestBlockSize: nat
    const maxBlock: nat

    /** The blocks in ring order from the front block, and the tail block's place. */
    ghost var ring: seq<Block>
    ghost var ti: nat
    /** Every element ever constructed in, and destroyed in, the queue's storage. */
    ghost var constructed: seq<Elem>
    ghost var destroyed: seq<Elem>
    /** What the constructor was asked for. */
    ghost const maxSize: nat

    ghost predicate Linked()
      reads `ring, `ti, `frontBlock, `tailBlock, (set b | b in ring)`next
    {
      ti < |ring| && frontBlock == ring[0] && tailBlock == ring[ti] && Cycle(ring)
    }

    /** Following `next` goes round all the blocks and back; no block or storage
        occurs twice. */
    static ghost predicate Cycle(blocks: seq<Block>)
      reads (set b | b in blocks)`next
    {
      && (forall i, j :: 0 <= i < j < |blocks| ==> blocks[i] != blocks[j] && blocks[i].data != blocks[j].data)
      && (forall i :: 0 <= i < |blocks| ==> blocks[i].next == blocks[Inc(i, |blocks|)])
    }

    /** The blocks of the ring as values. */
    ghost function Views(): (vs: seq<R.Block>)
      reads `ring, ring, set b | b in ring :: b.data
      ensures |vs| == |ring| && forall i :: 0 <= i < |ring| ==> vs[i] == ring[i].View()
    {
      ViewsOf(ring)
    }

    static ghost function ViewsOf(blocks: seq<Block>): (vs: seq<R.Block>)
      reads blocks, set b | b in blocks :: b.data
      ensures |vs| == |blocks| && forall i :: 0 <= i < |blocks| ==> vs[i] == blocks[i].View()
    {
      seq(|blocks|, i requires 0 <= i < |blocks| reads blocks, set b | b in blocks :: b.data => blocks[i].View())
    }

    ghost predicate SizesOk()
      reads `ring, `largestBlockSize
    {
      Sized(ring, largestBlockSize)
    }

    /** No block is smaller than the first ones or larger than the last one, which
        is at most twice MAX_BLOCK_SIZE; together they have room for `maxSize`
        elements wherever the consumer is. */
    ghost predicate Sized(blocks: seq<Block>, largest: nat) {
      && 2 <= maxBlock <= Pow2(62) && IsPow2(maxBlock) && IsPow2(largest)
      && M.InitialSize(maxSize, maxBlock) >= 2
      && largest <= 2 * maxBlock
      && (forall i :: 0 <= i < |blocks| ==>
          M.InitialSize(maxSize, maxBlock) <= blocks[i].data.Length <= largest)
      && Roomy(|blocks|, M.InitialSize(maxSize, maxBlock), maxSize)
    }

    ghost predicate Valid()
      reads this, ring, set b | b in ring :: b.data
    {
      && Linked() && SizesOk()
      && RingInv(Views(), ti, Quiet, false)
      && constructed == destroyed + Queue(Views(), ti)
    }

    /** The elements in the queue, oldest first. */
    ghost function Contents(): seq<Elem>
      reads this, ring, set b | b in ring :: b.data
      requires Valid()
    {
      Queue(Views(), ti)
    }

    /** Is there a slot for one more element without making a block? */
    ghost predicate HasRoom()
      reads this, ring, set b | b in ring :: b.data
      requires Valid()
    {
      !R.Full(tailBlock.View()) || ti + 1 < |ring|
    }

    // ---- Construction ----

    /** The constructor (80-137), for every positive `maxSize` of a 64-bit word. The
        queue is valid exactly if `maxSize + 1` is at most half the word's range: then
        it has exactly the blocks the formula promises, in one cycle, all empty.
        Beyond that `ceilToPow2` wraps to 0, and the one block made has no slot. */
    constructor (maxSize: nat, maxBlock: nat, bytes: Elem)
      requires 0 < maxSize < Pow2(64) && 2 <= maxBlock <= Pow2(62) && IsPow2(maxBlock)
      ensures Valid() <==> maxSize + 1 <= Pow2(63)
      ensures Valid() ==>
        && Contents() == [] && |ring| == M.InitialCount(maxSize, maxBlock)
        && forall i :: 0 <= i < |ring| ==>
             ring[i].View() == M.EmptyBlock(M.InitialSize(maxSize, maxBlock), bytes)
      ensures Valid() ==>
        && T.Promised(|ring|, largestBlockSize, maxSize, maxBlock)
        && forall i :: 0 <= i < |ring| ==> ring[i].data.Length == largestBlockSize
      ensures !Valid() ==> |ring| == 1 && tailBlock == ring[0] && tailBlock.data.Length == 0
      ensures this.maxSize == maxSize && this.maxBlock == maxBlock && constructed == [] && destroyed == []
      ensures fresh(ring) && forall i :: 0 <= i < |ring| ==> fresh(ring[i].data)
    {
      hide Pow2, IsPow2, LeastPow2AtLeast, Valid, Contents, Roomy, M.CeilPow2, Wrap, T.Promised;
      Word64();
      T.InitialSizes(maxSize, maxBlock);
      WrappedIncrement(maxSize);
      var size := CeilToPow2(Wrap(maxSize + 1, 64), 8);
      if maxSize + 1 <= Pow2(63) { CeilAgrees(maxSize + 1, size); }
      var first: Block;
      ghost var blocks: seq<Block>;
      if size > maxBlock * 2 {
        assert maxSize + maxBlock * 2 - 3 < Pow2(64);   // no overflow
        var initialBlockCount := (maxSize + maxBlock * 2 - 3) / (maxBlock - 1);
        size := maxBlock;
        first, blocks := BuildRing(initialBlockCount, size, bytes);
      } else {
        first := new Block(size, bytes);
        first.next := first;
        blocks := [first];
      }
      frontBlock, tailBlock, largestBlockSize := first, first, size;
      this.maxBlock, this.maxSize := maxBlock, maxSize;
      ring, ti, constructed, destroyed := blocks, 0, [], [];
      new;
      if maxSize + 1 <= Pow2(63) {
        assert |ring| == M.InitialCount(maxSize, maxBlock) && size == M.InitialSize(maxSize, maxBlock);
        EstablishEmpty(size, bytes);
        PromisedBlocks(size, bytes);
      } else {
        NoSlots();
      }
    }

    /** The blocks made are those the documentation promises. */
    lemma PromisedBlocks(size: nat, bytes: Elem)
      requires maxSize >= 1 && maxBlock >= 2 && size == M.InitialSize(maxSize, maxBlock) == largestBlockSize
      requires |ring| == M.InitialCount(maxSize, maxBlock)
      requires forall i :: 0 <= i < |ring| ==> ring[i].View() == M.EmptyBlock(size, bytes)
      ensures T.Promised(|ring|, largestBlockSize, maxSize, maxBlock)
      ensures forall i :: 0 <= i < |ring| ==> ring[i].data.Length == largestBlockSize
    {
      hide T.Promised, M.InitialSize, M.InitialCount;
      T.InitialBlocks(maxSize, maxBlock, bytes);
      forall i | 0 <= i < |ring| ensures ring[i].data.Length == largestBlockSize {
        assert |ring[i].View().slots| == size;
      }
    }

    lemma NoSlots()
      requires |ring| > 0 && ring[0].data.Length == 0
      ensures !Valid()
    {
    }

    lemma EstablishEmpty(size: nat, bytes: Elem)
      requires Linked() && ti == 0 && IsPow2(size) && constructed == destroyed && size >= 2
      requires SizesOk() && forall i :: 0 <= i < |ring| ==> ring[i].View() == M.EmptyBlock(size, bytes)
      ensures Valid() && Contents() == []
    {
      hide SizesOk, IsPow2;
      P.EmptyBlockOk(size, bytes);
      T.EmptyRing(Views(), M.EmptyBlock(size, bytes));
    }

    // ---- Reasoning about one changed block ----

    /** If only block `i` differs from the values `vs`, the ring is `vs` except for
        that block. */
    lemma OneBlockChanged(vs: seq<R.Block>, i: nat)
      requires i < |ring| == |vs|
      requires forall j :: 0 <= j < |ring| && j != i ==> ring[j].View() == vs[j]
      ensures Views() == vs[i := ring[i].View()]
    {
    }

    /** Validity, put together from the ring seen as values. */
    lemma Establish(vs: seq<R.Block>)
      requires Linked() && SizesOk() && Views() == vs && RingInv(vs, ti, Quiet, false)
      requires constructed == destroyed + Queue(vs, ti)
      ensures Valid() && Contents() == Queue(vs, ti)
    {
    }

    /** Validity, taken apart. */
    lemma Parts()
      requires Valid()
      ensures Linked() && SizesOk() && RingInv(Views(), ti, Quiet, false)
      ensures Contents() == Queue(Views(), ti) && constructed == destroyed + Contents()
    {
    }

    /** What validity says about the blocks an operation may touch. */
    lemma Ends()
      requires Valid()
      ensures 0 <= ti < |ring| && frontBlock in ring && tailBlock in ring
      ensures frontBlock == ring[0] && tailBlock == ring[ti]
      ensures PlaceOk(frontBlock.View(), 0, ti, Quiet, false) && PlaceOk(tailBlock.View(), ti, ti, Quiet, false)
      ensures frontBlock.data.Length > 0 && tailBlock.data.Length > 0
      ensures frontBlock == tailBlock <==> ti == 0
      ensures tailBlock.next == ring[Inc(ti, |ring|)] && (tailBlock.next == frontBlock <==> ti + 1 == |ring|)
      ensures ti + 1 < |ring| ==>
        && PlaceOk(ring[ti + 1].View(), ti + 1, ti, Quiet, false) && ring[ti + 1].data.Length > 0
        && ring[ti + 1] != tailBlock && ring[ti + 1].data != tailBlock.data
      ensures ti > 0 ==>
        && frontBlock.next == ring[1] && ring[1] != frontBlock && ring[1].data != frontBlock.data
        && PlaceOk(ring[1].View(), 1, ti, Quiet, false)
    {
      hide PlaceOk, Queue, SizesOk;
      var vs := Views();
      assert PlaceOk(vs[0], 0, ti, Quiet, false) && PlaceOk(vs[ti], ti, ti, Quiet, false);
      PlaceSize(vs[0], 0, ti);
      PlaceSize(vs[ti], ti, ti);
      if ti + 1 < |ring| {
        assert PlaceOk(vs[ti + 1], ti + 1, ti, Quiet, false);
        PlaceSize(vs[ti + 1], ti + 1, ti);
        assert ring[0] != ring[ti + 1] && ring[ti] != ring[ti + 1];
      }
      if ti > 0 {
        assert ring[0] != ring[ti] && ring[0] != ring[1];
        assert PlaceOk(vs[1], 1, ti, Quiet, false);
      }
    }

    static lemma PlaceSize(b: R.Block, i: int, ti: int)
      requires PlaceOk(b, i, ti, Quiet, false)
      ensures |b.slots| >= 2
    {
    }

    // ---- The consumer's operations ----

    /** Refreshing the shadow of `tail` or of `front` in one block. */
    lemma Refreshed(vs: seq<R.Block>, i: nat)
      requires RingInv(vs, ti, Quiet, false) && i < |vs|
      ensures var x := vs[i].(localTail := vs[i].tail);
        RingInv(vs[i := x], ti, Quiet, false) && Queue(vs[i := x], ti) == Queue(vs, ti)
      ensures var x := vs[i].(localFront := vs[i].front);
        RingInv(vs[i := x], ti, Quiet, false) && Queue(vs[i := x], ti) == Queue(vs, ti)
    {
      hide Queue, R.SlotsOk;
      assert PlaceOk(vs[i], i, ti, Quiet, false);
      ShadowStep(vs, ti, Quiet, false, i, vs[i].(localTail := vs[i].tail));
      ShadowStep(vs, ti, Quiet, false, i, vs[i].(localFront := vs[i].front));
    }

    /** What the consumer's two tests find out, given that the indices are sound. */
    static lemma TailTest(b: R.Block)
      requires R.IndexOk(b)
      ensures b.front != b.localTail ==> R.Count(b) > 0 && R.Dist(b.front, b.localTail, |b.slots|) > 0
      ensures b.front == b.tail <==> R.Count(b) == 0
      ensures b.front != b.tail ==> R.Dist(b.front, b.tail, |b.slots|) > 0
    {
    }

    /** The two-part test of the front block (229-233, 312-316, 354-358). */
    method ProbeFront() returns (bf: nat, found: bool)
      requires Valid()
      modifies frontBlock`localTail
      ensures Valid() && Contents() == old(Contents())
      ensures bf == frontBlock.front && (found <==> R.Count(frontBlock.View()) > 0)
      ensures found ==> R.Dist(bf, frontBlock.localTail, frontBlock.data.Length) > 0
    {
      hide Valid, Contents, Linked, SizesOk, RingInv, Queue, PlaceOk, R.IndexOk, R.SlotsOk, IsPow2;
      Ends();
      Parts();
      Apart(0);
      PlaceIndices(frontBlock.View(), 0, ti);
      TailTest(frontBlock.View());
      bf := frontBlock.front;
      found := bf != frontBlock.localTail;
      if !found {
        ghost var vs := Views();
        Refreshed(vs, 0);
        frontBlock.localTail := frontBlock.tail;
        found := bf != frontBlock.localTail;
        OneBlockChanged(vs, 0);
        Establish(Views());
      }
    }

    static lemma PlaceIndices(b: R.Block, i: int, ti: int)
      requires PlaceOk(b, i, ti, Quiet, false)
      ensures R.IndexOk(b) && R.SlotsOk(b, false, false)
    {
    }

    /** The ring after the head of the queue has been removed. */
    lemma HeadRemoved(vs: seq<R.Block>) returns (x: R.Block)
      requires RingInv(vs, ti, Quiet, false) && R.Dist(vs[0].front, vs[0].localTail, |vs[0].slots|) > 0
      ensures var b := vs[0];
        && b.front < |b.slots| && b.slots[b.front].live
        && x == R.FrontStored(R.Destroyed(b))
        && RingInv(vs[0 := x], ti, Quiet, false)
        && Queue(vs, ti) != [] && Queue(vs[0 := x], ti) == Queue(vs, ti)[1..]
    {
      hide Queue, R.SlotsOk, IsPow2;
      assert PlaceOk(vs[0], 0, ti, Quiet, false);
      x := R.FrontStored(R.Destroyed(vs[0]));
      DestroyStep(vs, ti, Quiet);
      RemoveStep(vs[0 := R.Destroyed(vs[0])], ti, Quiet);
      assert vs[0 := R.Destroyed(vs[0])][0 := x] == vs[0 := x];
    }

    static lemma HeadMoved(all: seq<Elem>, gone: seq<Elem>, q: seq<Elem>)
      requires all == gone + q && q != []
      ensures all == gone + [q[0]] + q[1..]
    {
      assert q == [q[0]] + q[1..];
    }

    /** Destroying the front element and storing `front` (240-245, 363-368). */
    method DropFront(bf: nat)
      requires Valid() && bf == frontBlock.front
      requires R.Dist(bf, frontBlock.localTail, frontBlock.data.Length) > 0
      modifies `destroyed, frontBlock`front, frontBlock.data
      ensures Valid() && old(Contents()) != [] && Contents() == old(Contents())[1..]
      ensures destroyed == old(destroyed) + [old(Contents())[0]]
    {
      hide R.Constructed, R.Destroyed, R.TailStored, R.FrontStored, Valid, Contents, Linked, SizesOk, RingInv;
      hide Queue, PlaceOk, R.IndexOk, R.SlotsOk, R.Contents, R.Count, R.Capacity, R.Dist, R.Full, IsPow2;
      Ends();
      Parts();
      Apart(0);
      PlaceIndices(frontBlock.View(), 0, ti);
      ghost var vs, q := Views(), Contents();
      ghost var x := HeadRemoved(vs);
      frontBlock.Drop();
      HeadMoved(constructed, destroyed, q);
      destroyed := destroyed + [q[0]];
      assert frontBlock.View() == x;
      OneBlockChanged(vs, 0);
      Establish(vs[0 := x]);
    }

    /** Reads the front element. */
    lemma FrontElement()
      requires Valid() && R.Count(frontBlock.View()) > 0
      ensures frontBlock.front < frontBlock.data.Length && Contents() != []
      ensures frontBlock.data[frontBlock.front] == R.Slot(true, Contents()[0])
    {
      hide Queue, SizesOk;
      Ends();
      DestroyStep(Views(), ti, Quiet);
    }

    /** An empty front block that is also the tail block means an empty queue. */
    lemma EmptyExactly()
      requires Valid()
      ensures Contents() == [] <==> R.Count(frontBlock.View()) == 0 && frontBlock == tailBlock
    {
      hide Queue, SizesOk, PlaceOk;
      Ends();
      QueueHead(Views(), ti, Quiet, false);
    }

    /** Re-reading `tail` after the tail block was seen to be another one (250-252,
        372-374). */
    method RereadFront() returns (bf: nat, bt: nat)
      requires Valid()
      modifies frontBlock`localTail
      ensures Valid() && Contents() == old(Contents())
      ensures bf == frontBlock.front && bt == frontBlock.tail
    {
      hide Valid, Contents, Linked, SizesOk, RingInv, Queue, PlaceOk, R.IndexOk, R.SlotsOk, IsPow2;
      Ends();
      Parts();
      Apart(0);
      ghost var vs := Views();
      Refreshed(vs, 0);
      frontBlock.localTail := frontBlock.tail;
      bt := frontBlock.localTail;
      bf := frontBlock.front;
      OneBlockChanged(vs, 0);
      Establish(Views());
    }

    /** Reading the next block's indices (261-272, 382-388): it is not empty. */
    method ProbeNext() returns (nextFront: nat)
      requires Valid() && frontBlock != tailBlock
      modifies frontBlock.next`localTail
      ensures Valid() && Contents() == old(Contents()) && frontBlock.next != null
      ensures nextFront == frontBlock.next.front
      ensures R.Dist(nextFront, frontBlock.next.localTail, frontBlock.next.data.Length) > 0
    {
      hide Valid, Contents, Linked, SizesOk, RingInv, Queue, PlaceOk, R.IndexOk, R.SlotsOk, IsPow2;
      Ends();
      Parts();
      Apart(1);
      NextNotEmpty(ring[1].View(), ti);
      ghost var vs := Views();
      Refreshed(vs, 1);
      var nextBlock := frontBlock.next;
      nextFront := nextBlock.front;
      nextBlock.localTail := nextBlock.tail;
      assert nextFront != nextBlock.localTail;                     // the asserts at 272 and 388
      OneBlockChanged(vs, 1);
      Establish(Views());
    }

    static lemma NextNotEmpty(b: R.Block, ti: int)
      requires PlaceOk(b, 1, ti, Quiet, false) && ti > 0
      ensures b.front != b.tail && R.Dist(b.front, b.tail, |b.slots|) > 0
    {
    }

    /** Leaving the exhausted front block (277, 392). */
    method AdvanceFront()
      requires Valid() && frontBlock != tailBlock && R.Count(frontBlock.View()) == 0
      modifies `frontBlock, `ring, `ti
      ensures Valid() && Contents() == old(Contents())
      ensures ring == Rotated(old(ring)) && multiset(ring) == multiset(old(ring))
      ensures frontBlock == old(frontBlock.next)
    {
      hide RingInv, Queue, R.Count, PlaceOk, SizesOk, Linked, Rotated;
      Ends();
      ghost var vs, blocks, place := Views(), ring, ti;
      AdvanceFrontStep(vs, ti, Quiet);
      CanTurn();
      frontBlock := frontBlock.next;
      ring := Rotated(ring);
      ti := ti - 1;
      Turned(blocks, place, vs);
    }

    lemma Relinked()
      requires ti < |ring| && frontBlock == ring[0] && tailBlock == ring[ti] && Cycle(ring)
      ensures Linked()
    {
    }

    lemma CanTurn()
      requires Linked() && SizesOk()
      ensures ti < |ring| && Cycle(ring) && Sized(ring, largestBlockSize)
    {
    }

    lemma Turned(blocks: seq<Block>, place: nat, vs: seq<R.Block>)
      requires 0 < place < |blocks| == |vs| && Cycle(blocks) && Sized(blocks, largestBlockSize)
      requires forall i :: 0 <= i < |blocks| ==> vs[i] == blocks[i].View()
      requires ring == Rotated(blocks) && ti == place - 1
      requires frontBlock == blocks[1] && tailBlock == blocks[place]
      ensures Linked() && SizesOk() && Views() == Rotated(vs) && multiset(ring) == multiset(blocks)
    {
      hide IsPow2, Roomy, M.InitialSize;
      RotatedLinks(blocks);
      assert blocks == [blocks[0]] + blocks[1..];
    }

    lemma RotatedLinks(blocks: seq<Block>)
      requires |blocks| > 1 && ring == Rotated(blocks) && Cycle(blocks)
      ensures Cycle(ring)
    {
      var n := |ring|;
      forall i | 0 <= i < n ensures ring[i].next == ring[Inc(i, n)] {
        var k := Inc(i, n);
        assert ring[i] == blocks[k] && blocks[k].next == blocks[Inc(k, n)];
      }
      forall i, j | 0 <= i < j < n ensures ring[i] != ring[j] && ring[i].data != ring[j].data {
        if j + 1 < n { assert blocks[i + 1] != blocks[j + 1]; } else { assert blocks[0] != blocks[i + 1]; }
      }
    }

    /** What `try_dequeue` and `pop` do before they take the element (229-277,
        354-392): find the block that holds the head of the queue. */
    method LocateFront() returns (bf: nat, found: bool)
      requires Valid()
      modifies `frontBlock, `ring, `ti, ring
      ensures Valid() && Contents() == old(Contents()) && multiset(ring) == multiset(old(ring))
      ensures found <==> Contents() != []
      ensures found ==>
        && bf == frontBlock.front
        && R.Dist(bf, frontBlock.localTail, frontBlock.data.Length) > 0
        && R.Count(frontBlock.View()) > 0
    {
      hide Valid, Contents;
      Ends();
      bf, found := ProbeFront();
      EmptyExactly();
      if !found && frontBlock != tailBlock {
        var bt;
        bf, bt := RereadFront();
        assert bf == bt;                       // undisturbed, it is still empty
        bf := ProbeNext();
        AdvanceFront();
        Ends();
        CountPositive(frontBlock.View());
        EmptyExactly();
        found := true;
      }
    }

    static lemma CountPositive(b: R.Block)
      requires R.IndexOk(b) && R.Dist(b.front, b.localTail, |b.slots|) > 0
      ensures R.Count(b) > 0
    {
    }

    /** `try_dequeue` (206-297): the head of the queue, or nothing if it is empty. */
    method TryDequeue() returns (result: Option<Elem>)
      requires Valid()
      modifies this, ring, set b | b in ring :: b.data
      ensures largestBlockSize == old(largestBlockSize)
      ensures Valid() && constructed == old(constructed) && multiset(ring) == multiset(old(ring))
      ensures old(Contents()) == [] ==> result == None && Contents() == [] && destroyed == old(destroyed)
      ensures old(Contents()) != [] ==>
        && result == Some(old(Contents())[0]) && Contents() == old(Contents())[1..]
        && destroyed == old(destroyed) + [old(Contents())[0]]
    {
      hide Valid, Contents;
      var bf, found := LocateFront();
      if !found { return None; }
      FrontElement();
      Ends();
      assert frontBlock in multiset(ring) && frontBlock in old(ring);
      result := Some(frontBlock.data[bf].val);
      DropFront(bf);
    }

    /** `pop` (347-410): the same effect as `TryDequeue`, without the element. */
    method Pop() returns (popped: bool)
      requires Valid()
      modifies this, ring, set b | b in ring :: b.data
      ensures largestBlockSize == old(largestBlockSize)
      ensures Valid() && constructed == old(constructed) && multiset(ring) == multiset(old(ring))
      ensures popped <==> old(Contents()) != []
      ensures Contents() == if popped then old(Contents())[1..] else old(Contents())
      ensures destroyed == old(destroyed) + if popped then [old(Contents())[0]] else []
    {
      hide Valid, Contents;
      var bf, found := LocateFront();
      if !found { return false; }
      Ends();
      assert frontBlock in multiset(ring) && frontBlock in old(ring);
      DropFront(bf);
      popped := true;
    }

    /** `peek` (305-342): where the head of the queue is. */
    method Peek() returns (place: Option<(Block, nat)>)
      requires Valid()
      modifies ring
      ensures Valid() && Contents() == old(Contents())
      ensures place == None <==> Contents() == []
      ensures place.Some? ==>
        var (b, i) := place.value;
        b in ring && i < b.data.Length && b.data[i] == R.Slot(true, Contents()[0])
    {
      hide Valid, Contents;
      Ends();
      var bf, found := ProbeFront();
      EmptyExactly();
      if found {
        FrontElement();
        place := Some((frontBlock, bf));
      } else if frontBlock != tailBlock {
        var bt;
        bf, bt := RereadFront();
        assert bf == bt;
        Ends();
        var nextBlock := frontBlock.next;
        NextElement();
        place := Some((nextBlock, nextBlock.front));
      } else {
        place := None;
      }
    }

    /** The head of the queue when the front block is exhausted. */
    lemma NextElement()
      requires Valid() && R.Count(frontBlock.View()) == 0 && frontBlock != tailBlock
      ensures 1 < |ring| && frontBlock.next == ring[1] && Contents() != []
      ensures ring[1].front < ring[1].data.Length && ring[1].front != ring[1].tail
      ensures ring[1].data[ring[1].front] == R.Slot(true, Contents()[0])
    {
      hide Queue, SizesOk;
      Ends();
      AdvanceFrontStep(Views(), ti, Quiet);
      DestroyStep(Rotated(Views()), ti - 1, Quiet);
    }

    // ---- The producer's operations ----

    /** What the producer's two tests find out. */
    static lemma FrontTest(b: R.Block)
      requires R.IndexOk(b)
      ensures MaskInc(b.tail, |b.slots|) != b.localFront ==>
        !R.Full(b) && R.Dist(b.localFront, b.tail, |b.slots|) < R.Capacity(b)
      ensures MaskInc(b.tail, |b.slots|) != b.front <==> !R.Full(b)
      ensures !R.Full(b) ==> R.Dist(b.front, b.tail, |b.slots|) < R.Capacity(b)
    {
    }

    /** The two-part test of the tail block (447-452). */
    method ProbeTail() returns (room: bool)
      requires Valid()
      modifies tailBlock`localFront
      ensures Valid() && Contents() == old(Contents())
      ensures room <==> !R.Full(tailBlock.View())
      ensures room <==> old(!R.Full(tailBlock.View()))
      ensures room ==>
        R.Dist(tailBlock.localFront, tailBlock.tail, tailBlock.data.Length) < R.Capacity(tailBlock.View())
    {
      hide Valid, Contents, Linked, SizesOk, RingInv, Queue, PlaceOk, R.IndexOk, R.SlotsOk, IsPow2;
      Ends();
      Parts();
      Apart(ti);
      PlaceIndices(tailBlock.View(), ti, ti);
      FrontTest(tailBlock.View());
      var nextBlockTail := MaskInc(tailBlock.tail, tailBlock.data.Length);
      room := nextBlockTail != tailBlock.localFront;
      if !room {
        ghost var vs := Views();
        Refreshed(vs, ti);
        tailBlock.localFront := tailBlock.front;
        room := nextBlockTail != tailBlock.localFront;
        OneBlockChanged(vs, ti);
        Establish(Views());
      }
    }

    /** The ring after an element has been added to the tail block. */
    lemma HereAdded(vs: seq<R.Block>, v: Elem) returns (x: R.Block)
      requires RingInv(vs, ti, Quiet, false) && !R.Full(vs[ti])
      requires R.Dist(vs[ti].localFront, vs[ti].tail, |vs[ti].slots|) < R.Capacity(vs[ti])
      ensures var b := vs[ti];
        && b.tail < |b.slots| && !b.slots[b.tail].live
        && x == R.TailStored(R.Constructed(b, v))
        && RingInv(vs[ti := x], ti, Quiet, false) && Queue(vs[ti := x], ti) == Queue(vs, ti) + [v]
    {
      hide Queue, R.SlotsOk, IsPow2;
      assert PlaceOk(vs[ti], ti, ti, Quiet, false);
      x := R.TailStored(R.Constructed(vs[ti], v));
      ConstructInTailStep(vs, ti, false, v);
      PublishTailStep(vs[ti := R.Constructed(vs[ti], v)], ti, false);
      assert vs[ti := R.Constructed(vs[ti], v)][ti := x] == vs[ti := x];
    }

    /** There is room in the tail block (453-459). */
    method EnqueueHere(v: Elem)
      requires Valid() && !R.Full(tailBlock.View())
      requires R.Dist(tailBlock.localFront, tailBlock.tail, tailBlock.data.Length) < R.Capacity(tailBlock.View())
      modifies `constructed, tailBlock`tail, tailBlock.data
      ensures Valid() && Contents() == old(Contents()) + [v] && constructed == old(constructed) + [v]
    {
      hide R.Constructed, R.Destroyed, R.TailStored, R.FrontStored, Valid, Contents, Linked, SizesOk, RingInv;
      hide Queue, PlaceOk, R.IndexOk, R.SlotsOk, R.Contents, R.Count, R.Capacity, R.Dist, R.Full, IsPow2;
      Ends();
      Parts();
      Apart(ti);
      PlaceIndices(tailBlock.View(), ti, ti);
      ghost var vs, q := Views(), Contents();
      ghost var x := HereAdded(vs, v);
      tailBlock.Append(v);
      constructed := constructed + [v];
      assert tailBlock.View() == x;
      OneBlockChanged(vs, ti);
      assert constructed == destroyed + (q + [v]);
      Establish(vs[ti := x]);
    }

    /** No other place of the ring holds block `i` or its storage. */
    lemma Apart(i: nat)
      requires Linked() && i < |ring|
      ensures forall j :: 0 <= j < |ring| && j != i ==> ring[j] != ring[i] && ring[j].data != ring[i].data
    {
    }

    /** Reading the free block's indices (472-480): it is empty. */
    method ProbeNextFree() returns (nextBlockTail: nat)
      requires Valid() && ti + 1 < |ring|
      modifies tailBlock.next`localFront
      ensures Valid() && Contents() == old(Contents())
      ensures tailBlock.View() == old(tailBlock.View())
      ensures nextBlockTail == ring[ti + 1].tail && ring[ti + 1].localFront == ring[ti + 1].front
    {
      hide Valid, Contents, Linked, SizesOk, RingInv, Queue, PlaceOk, R.IndexOk, R.SlotsOk, IsPow2;
      Ends();
      Parts();
      Apart(ti + 1);
      NextFree(ring[ti + 1].View(), ti);
      ghost var vs := Views();
      Refreshed(vs, ti + 1);
      var nextBlock := tailBlock.next;
      nextBlock.localFront := nextBlock.front;
      nextBlockTail := nextBlock.tail;
      assert nextBlock.localFront == nextBlockTail;                // the assert at 479
      OneBlockChanged(vs, ti + 1);
      Establish(Views());
    }

    static lemma NextFree(b: R.Block, ti: int)
      requires PlaceOk(b, ti + 1, ti, Quiet, false) && ti >= 0
      ensures b.front == b.tail
    {
    }

    /** The ring after an element has been added to the free block after the tail. */
    lemma NextAdded(vs: seq<R.Block>, v: Elem) returns (x: R.Block)
      requires RingInv(vs, ti, Quiet, false) && R.Full(vs[ti]) && ti + 1 < |vs|
      requires vs[ti + 1].localFront == vs[ti + 1].front
      ensures var b := vs[ti + 1];
        && b.tail < |b.slots| && !b.slots[b.tail].live
        && x == R.TailStored(R.Constructed(b, v))
        && RingInv(vs[ti + 1 := x], ti + 1, Quiet, false)
        && Queue(vs[ti + 1 := x], ti + 1) == Queue(vs, ti) + [v]
    {
      hide Queue, R.SlotsOk, IsPow2, R.Contents;
      assert PlaceOk(vs[ti + 1], ti + 1, ti, Quiet, false);
      var b := vs[ti + 1];
      x := R.TailStored(R.Constructed(b, v));
      ConstructInNextStep(vs, ti, false, v);
      var ws := vs[ti + 1 := R.Constructed(b, v)];
      PublishNextStep(ws, ti, false);
      assert ws[ti + 1 := x] == vs[ti + 1 := x];
      AdvanceTailStep(vs[ti + 1 := x], ti, false);
    }

    /** The block after the tail block. */
    lemma NextBlock()
      requires Valid() && ti + 1 < |ring|
      ensures Cycle(ring) && tailBlock.next == ring[ti + 1] && frontBlock == ring[0]
    {
    }

    lemma NextSound()
      requires Valid() && ti + 1 < |ring| && ring[ti + 1].localFront == ring[ti + 1].front
      ensures var b := ring[ti + 1].View();
        R.IndexOk(b) && R.SlotsOk(b, false, false) && R.Dist(b.localFront, b.tail, |b.slots|) < R.Capacity(b)
    {
      hide Queue, SizesOk, Linked, R.SlotsOk;
      assert PlaceOk(Views()[ti + 1], ti + 1, ti, Quiet, false);
    }

    /** The tail block is full but the next one is free (482-488). */
    method EnqueueNext(v: Elem, nextBlockTail: nat)
      requires Valid() && R.Full(tailBlock.View()) && ti + 1 < |ring|
      requires nextBlockTail == ring[ti + 1].tail && ring[ti + 1].localFront == ring[ti + 1].front
      modifies `tailBlock, `ti, `constructed, tailBlock.next`tail, ring[ti + 1].data
      ensures Valid() && Contents() == old(Contents()) + [v] && constructed == old(constructed) + [v]
      ensures tailBlock == ring[old(ti) + 1]
    {
      hide Valid, Contents, Linked, Cycle, SizesOk, RingInv, Queue, R.Full, R.Constructed, R.TailStored;
      hide PlaceOk, R.IndexOk, R.SlotsOk, R.Contents, R.Count, R.Capacity, R.Dist, IsPow2;
      NextBlock();
      Parts();
      Apart(ti + 1);
      ghost var vs, q, n := Views(), Contents(), ti + 1;
      assert vs[ti] == tailBlock.View() by { Ends(); }
      NextSound();
      ghost var x := NextAdded(vs, v);
      var nextBlock := tailBlock.next;
      nextBlock.Append(v);
      OneBlockChanged(vs, n);
      assert Views() == vs[n := x];
      tailBlock := nextBlock;
      ti := n;
      constructed := constructed + [v];
      assert constructed == destroyed + (q + [v]);
      Relinked();
      Establish(vs[n := x]);
    }

    lemma GrownSized()
      requires Sized(ring, largestBlockSize) && |ring| > 0
      ensures var size := M.GrownSize(largestBlockSize, maxBlock);
        IsPow2(size) && 2 <= largestBlockSize <= size <= 2 * maxBlock
    {
      hide M.InitialSize, Roomy, IsPow2, Pow2;
      assert M.InitialSize(maxSize, maxBlock) <= ring[0].data.Length;
      M.GrownSizeOk(largestBlockSize, maxBlock);
    }

    lemma SplicedSized(blocks: seq<Block>, largest: nat, at: nat, b: Block)
      requires at < |blocks| && Sized(blocks, largest)
      requires IsPow2(b.data.Length) && largest <= b.data.Length <= 2 * maxBlock
      ensures Sized(Spliced(blocks, at, b), b.data.Length)
    {
      hide M.InitialSize, Roomy, IsPow2, Pow2;
      assert M.InitialSize(maxSize, maxBlock) <= blocks[0].data.Length;
      RoomyGrows(|blocks|, M.InitialSize(maxSize, maxBlock), maxSize);
      P.SplicedAt(blocks, at, b);
    }

    /** The ring of blocks after the splice is one cycle with one more block. */
    lemma SplicedCycle(blocks: seq<Block>, at: nat, b: Block)
      requires at < |blocks| && b !in blocks
      requires forall i :: 0 <= i < |blocks| ==> b.data != blocks[i].data
      requires forall i, j :: 0 <= i < j < |blocks| ==> blocks[i] != blocks[j] && blocks[i].data != blocks[j].data
      requires forall i :: 0 <= i < |blocks| && i != at ==> blocks[i].next == blocks[Inc(i, |blocks|)]
      requires b.next == blocks[Inc(at, |blocks|)] && blocks[at].next == b
      ensures Cycle(Spliced(blocks, at, b))
    {
      var r, n := Spliced(blocks, at, b), |blocks| + 1;
      P.SplicedAt(blocks, at, b);
      hide Spliced;
      forall i | 0 <= i < n ensures r[i].next == r[Inc(i, n)] {
        if i < at { assert r[i] == blocks[i]; } else if i > at + 1 { assert r[i] == blocks[i - 1]; }
      }
      forall i, j | 0 <= i < j < n ensures r[i] != r[j] && r[i].data != r[j].data {
        var i', j' := if i <= at then i else i - 1, if j <= at then j else j - 1;
        if i != at + 1 && j != at + 1 { assert blocks[i'] != blocks[j']; }
      }
    }

    /** The ring after a new block holding the element has been spliced in. */
    lemma NewAdded(vs: seq<R.Block>, b: R.Block, v: Elem)
      requires RingInv(vs, ti, Quiet, false) && R.Full(vs[ti])
      requires R.IndexOk(b) && R.SlotsOk(b, false, false) && R.Count(b) == 1 && R.Contents(b) == [v]
      ensures var ws := Spliced(vs, ti, b);
        RingInv(ws, ti + 1, Quiet, false) && Queue(ws, ti + 1) == Queue(vs, ti) + [v]
    {
      hide Queue, R.SlotsOk, R.IndexOk, R.Contents, R.Count, R.Full;
      var ws := Spliced(vs, ti, b);
      P.SplicedAt(vs, ti, b);
      SpliceStep(vs, ti, false, b);
      AdvanceTailStep(ws, ti, false);
    }

    static lemma InitialisedContents(size: nat, bytes: Elem, v: Elem) returns (b: R.Block)
      requires size >= 2 && IsPow2(size)
      ensures b == M.EmptyBlock(size, bytes).(
        slots := M.EmptyBlock(size, bytes).slots[0 := R.Slot(true, v)], tail := 1, localTail := 1)
      ensures R.IndexOk(b) && R.SlotsOk(b, false, false) && R.Count(b) == 1 && R.Contents(b) == [v]
    {
      P.EmptyBlockOk(size, bytes);
      P.InitialisedOk(M.EmptyBlock(size, bytes), v);
      b := P.Initialised(M.EmptyBlock(size, bytes), v);
    }

    /** A new block with one element in it, not yet in the ring (493, 500-503). */
    static method MakeBlock(size: nat, v: Elem, bytes: Elem) returns (b: Block)
      requires size >= 2
      ensures fresh(b) && fresh(b.data) && b.data.Length == size
      ensures b.View() == M.EmptyBlock(size, bytes).(
        slots := M.EmptyBlock(size, bytes).slots[0 := R.Slot(true, v)], tail := 1, localTail := 1)
    {
      b := new Block(size, bytes);
      b.data[0] := R.Slot(true, v);
      assert b.front == 0;                                         // the assert at 502
      b.tail, b.localTail := 1, 1;
    }

    /** Splicing a block in after the tail block and making it the tail block
        (505-515). */
    method SpliceIn(newBlock: Block)
      requires Linked() && newBlock !in ring
      requires forall i :: 0 <= i < |ring| ==> newBlock.data != ring[i].data
      modifies `tailBlock, `ti, `ring, tailBlock`next, newBlock`next
      ensures Linked() && ring == Spliced(old(ring), old(ti), newBlock)
      ensures tailBlock == newBlock && ti == old(ti) + 1
      ensures forall b :: b in old(ring) && b != old(tailBlock) ==> b.next == old(b.next)
    {
      hide Linked, Cycle;
      ghost var blocks, at := ring, ti;
      Ring();
      newBlock.next := tailBlock.next;
      tailBlock.next := newBlock;
      tailBlock := newBlock;
      ring := Spliced(blocks, at, newBlock);
      ti := at + 1;
      SplicedCycle(blocks, at, newBlock);
      P.SplicedAt(blocks, at, newBlock);
      Relinked();
    }

    lemma Ring()
      requires Linked()
      ensures ti < |ring| && frontBlock == ring[0] && tailBlock == ring[ti]
      ensures forall i, j :: 0 <= i < j < |ring| ==> ring[i] != ring[j] && ring[i].data != ring[j].data
      ensures forall i :: 0 <= i < |ring| ==> ring[i].next == ring[Inc(i, |ring|)]
    {
    }

    /** The tail block is full and there is no free block (492-515). */
    method EnqueueNew(v: Elem, bytes: Elem)
      requires Valid() && R.Full(tailBlock.View())
      modifies `tailBlock, `ti, `ring, `largestBlockSize, `constructed, tailBlock`next
      ensures Valid() && Contents() == old(Contents()) + [v] && constructed == old(constructed) + [v]
      ensures fresh(tailBlock) && fresh(tailBlock.data)
      ensures tailBlock.data.Length == largestBlockSize == old(M.GrownSize(largestBlockSize, maxBlock))
      ensures ring == Spliced(old(ring), old(ti), tailBlock)
      ensures forall b :: b in old(ring) && b != old(tailBlock) ==> b.next == old(b.next)
    {
      hide Valid, Contents, Linked, Cycle, SizesOk, Sized, RingInv, Queue, Spliced, M.GrownSize;
      hide R.Full, R.IndexOk, R.SlotsOk, R.Contents, R.Count, IsPow2;
      Parts();
      CanTurn();
      GrownSized();
      ghost var vs, q, blocks, at := Views(), Contents(), ring, ti;
      assert tailBlock == ring[ti] by { Ring(); }
      var newBlockSize := M.GrownSize(largestBlockSize, maxBlock);
      var newBlock := MakeBlock(newBlockSize, v, bytes);
      ghost var b := InitialisedContents(newBlockSize, bytes, v);
      NewAdded(vs, b, v);
      SpliceIn(newBlock);
      SplicedSized(blocks, largestBlockSize, at, newBlock);
      largestBlockSize := newBlockSize;
      constructed := constructed + [v];
      SplicedViews(blocks, vs, at, newBlock);
      assert constructed == destroyed + (q + [v]);
      Establish(Spliced(vs, at, b));
    }

    /** The spliced ring as values. */
    lemma SplicedViews(blocks: seq<Block>, vs: seq<R.Block>, at: nat, b: Block)
      requires at < |blocks| == |vs| && ring == Spliced(blocks, at, b) && Sized(ring, largestBlockSize)
      requires forall i :: 0 <= i < |blocks| ==> blocks[i].View() == vs[i]
      ensures Views() == Spliced(vs, at, b.View()) && SizesOk()
    {
      hide Sized;
      P.SplicedAt(blocks, at, b);
      P.SplicedAt(vs, at, b.View());
    }

    /** With no free block and a full tail block, at least `maxSize` elements are in
        the queue. */
    lemma FullQueue()
      requires Valid() && !HasRoom()
      ensures |Contents()| >= maxSize
    {
      hide Queue, M.InitialSize, Usable, Roomy, Pow2, IsPow2;
      var vs := Views();
      NoFreeBlock(vs, ti, Quiet, false, M.InitialSize(maxSize, maxBlock), largestBlockSize, maxSize);
    }

    /** The test at 463 finds out whether there is a free block. */
    lemma TailEnd()
      requires Valid()
      ensures tailBlock in ring && (tailBlock.next == frontBlock <==> ti + 1 >= |ring|)
      ensures ti + 1 < |ring| ==> tailBlock.next == ring[ti + 1] && ring[ti + 1] in ring
    {
      hide RingInv, Queue, SizesOk;
      if ti + 1 < |ring| { assert ring[0] != ring[ti + 1]; }
    }

    /** `inner_enqueue` (433-528): appends the element, unless there is no room and
        it may not, or cannot, make a block; and then at least `maxSize` elements
        are in the queue. */
    method InnerEnqueue(v: Elem, mode: M.Mode, mallocOk: bool, bytes: Elem) returns (ok: bool)
      requires Valid()
      modifies this, ring, set b | b in ring :: b.data
      ensures Valid() && destroyed == old(destroyed)
      ensures ok <==> old(HasRoom()) || (mode == M.CanAlloc && mallocOk)
      ensures Contents() == (if ok then old(Contents()) + [v] else old(Contents()))
      ensures constructed == (if ok then old(constructed) + [v] else old(constructed))
      ensures !old(HasRoom()) ==> |old(Contents())| >= maxSize
      ensures old(HasRoom()) || !ok ==> ring == old(ring)
      ensures !old(HasRoom()) && ok ==>
        && ring == Spliced(old(ring), old(ti), tailBlock) && fresh(tailBlock) && fresh(tailBlock.data)
        && tailBlock.data.Length == largestBlockSize
      ensures largestBlockSize ==
        if old(HasRoom()) || !ok || old(largestBlockSize) >= maxBlock then old(largestBlockSize)
        else 2 * old(largestBlockSize)
    {
      hide Valid, Contents, R.Full;
      TailEnd();
      if !HasRoom() { FullQueue(); }
      var room := ProbeTail();
      TailEnd();
      if room {
        EnqueueHere(v);
      } else if tailBlock.next != frontBlock {
        var nextBlockTail := ProbeNextFree();
        EnqueueNext(v, nextBlockTail);
      } else if mode == M.CanAlloc {
        if !mallocOk { return false; }
        EnqueueNew(v, bytes);
      } else {
        return false;
      }
      ok := true;
    }

    // ---- Size and destruction ----

    /** The ring walked block by block, as both walks below do it. */
    lemma Walk(i: nat)
      requires Valid() && i < |ring|
      ensures R.IndexOk(ring[i].View()) && R.SlotsOk(ring[i].View(), false, false)
      ensures frontBlock == ring[0] && ring[i].next == ring[Inc(i, |ring|)]
      ensures ring[i].next == frontBlock <==> i + 1 == |ring|
      ensures ring[i].data.Length <= Pow2(64)
      ensures BlocksOk(Views()) && Concat(Views()) == Contents()
      ensures Concat(Views()[..i + 1]) == Concat(Views()[..i]) + R.Contents(ring[i].View())
    {
      hide Queue, Concat, R.Contents, R.SlotsOk, M.InitialSize, Roomy, IsPow2, Pow2, R.Count, R.Full;
      var vs := Views();
      assert PlaceOk(vs[i], i, ti, Quiet, false);
      forall j | 0 <= j < |vs| ensures R.IndexOk(vs[j]) { assert PlaceOk(vs[j], j, ti, Quiet, false); }
      QueueIsWholeRing(vs, ti, Quiet, false);
      ConcatLast(vs[..i + 1]);
      assert vs[..i + 1][..i] == vs[..i];
      Word64();
      if i + 1 < |ring| { assert ring[0] != ring[i + 1]; }
    }

    /** One block more: the masked difference of its indices, added in a 64-bit word. */
    static lemma OneMoreCounted(b: R.Block, before: seq<Elem>)
      requires R.IndexOk(b) && |b.slots| <= Pow2(64)
      ensures |b.slots| > 0
      ensures Wrap(Wrap(|before|, 64) + R.MaskedCount(b, 64), 64) == Wrap(|before + R.Contents(b)|, 64)
    {
      hide Pow2, R.Contents, R.MaskedCount, Wrap;
      R.MaskedCountExact(b, 64);
      WrapPlus(|before|, R.Count(b), 64);
    }

    /** `size_approx` (414-427), run alone: the number of elements in the queue, as
        far as a 64-bit word can hold it. */
    method SizeApprox() returns (result: nat)
      requires Valid()
      ensures result == Wrap(|Contents()|, 64)
    {
      hide Valid, Contents, Pow2, R.Contents, R.SlotsOk, R.IndexOk, R.Count, Concat, And, BlocksOk, Wrap;
      var first := frontBlock;
      var block := first;
      result := 0;
      ghost var vs, n, i := Views(), |ring|, 0;
      Walk0();
      assert Wrap(0, 64) == 0;
      var more := true;
      while more
        invariant 0 <= i <= n && (more <==> i < n) && (i < n ==> block == ring[i])
        invariant BlocksOk(vs) && BlocksOk(vs[..i]) && result == Wrap(|Concat(vs[..i])|, 64)
        decreases n - i
      {
        Walk(i);
        OneMore(vs, i);
        OneMoreCounted(vs[i], Concat(vs[..i]));
        var blockFront: int, blockTail: int := block.front, block.tail;
        result := Wrap(result + And(Wrap(blockTail - blockFront, 64), block.data.Length - 1), 64);
        block := block.next;
        more := block != first;
        i := i + 1;
      }
      Walk(n - 1);
      assert vs[..n] == vs;
    }

    lemma Walk0()
      requires Valid()
      ensures |ring| > 0 && frontBlock == ring[0]
      ensures BlocksOk(Views()) && BlocksOk(Views()[..0]) && Concat(Views()[..0]) == []
    {
      hide Queue, R.IndexOk, R.SlotsOk, Pow2;
      var vs := Views();
      forall j | 0 <= j < |vs| ensures R.IndexOk(vs[j]) { assert PlaceOk(vs[j], j, ti, Quiet, false); }
    }

    /** The destructor (141-165): the walk ends, frees every block once, and
        destroys exactly the remaining elements, oldest first; after it, everything
        ever constructed in the queue's storage has been destroyed once. */
    method Destroy() returns (ghost freed: seq<Block>, ghost dead: seq<Elem>)
      requires Valid()
      modifies `destroyed, set b | b in ring :: b.data
      ensures freed == old(ring) && forall i, j :: 0 <= i < j < |freed| ==> freed[i] != freed[j]
      ensures dead == old(Contents()) && destroyed == old(destroyed) + dead && destroyed == constructed
      ensures forall b :: b in old(ring) ==> AllDead(b)
    {
      hide Valid, Contents, Linked, Cycle, SizesOk, RingInv, R.Contents, R.SlotsOk, R.IndexOk, Concat, Queue;
      hide R.Count, AllDead, BlocksOk;
      Parts();
      var first := frontBlock;
      var block := first;
      freed, dead := [], [];
      ghost var vs, n, i := Views(), |ring|, 0;
      ValuesOk(vs, ti);
      LinkAt(0);
      var more := true;
      while more
        invariant 0 <= i <= n && (more <==> i < n) && (i < n ==> block == ring[i])
        invariant BlocksOk(vs[..i]) && freed == ring[..i] && dead == Concat(vs[..i])
        invariant Linked() && destroyed == old(destroyed)
        invariant forall j :: i <= j < n ==> ring[j].View() == vs[j]
        invariant forall j :: 0 <= j < i ==> AllDead(ring[j])
        decreases n - i
      {
        LinkAt(i);
        OneMore(vs, i);
        var nextBlock := block.next;
        ghost var gone := FreeBlock(block, i);
        dead := dead + gone;
        freed := freed + [block];
        block := nextBlock;
        more := block != first;
        i := i + 1;
      }
      assert vs[..n] == vs && ring[..n] == ring;
      Ring();
      destroyed := destroyed + dead;
    }

    /** Destroying what one block holds touches no other block (151-162). */
    method FreeBlock(block: Block, ghost i: nat) returns (ghost gone: seq<Elem>)
      requires Linked() && i < |ring| && block == ring[i]
      requires R.IndexOk(block.View()) && R.SlotsOk(block.View(), false, false)
      modifies block.data
      ensures gone == old(R.Contents(block.View())) && AllDead(block)
      ensures forall j :: 0 <= j < |ring| && j != i ==>
        ring[j].View() == old(ring[j].View()) && (AllDead(ring[j]) <==> old(AllDead(ring[j])))
    {
      hide Linked, R.IndexOk, R.SlotsOk, R.Contents;
      Apart(i);
      gone := block.DestroyAll();
    }

    static ghost predicate AllDead(b: Block)
      reads b.data
    {
      forall j :: 0 <= j < b.data.Length ==> !b.data[j].live
    }

    lemma LinkAt(i: nat)
      requires Linked() && i < |ring|
      ensures ring[i].next == ring[Inc(i, |ring|)] && (ring[i].next == frontBlock <==> i + 1 == |ring|)
      ensures frontBlock == ring[0]
    {
      if i + 1 < |ring| { assert ring[0] != ring[i + 1]; }
    }

    static lemma ValuesOk(vs: seq<R.Block>, ti: int)
      requires RingInv(vs, ti, Quiet, false)
      ensures BlocksOk(vs) && Concat(vs) == Queue(vs, ti)
      ensures BlocksOk(vs[..0]) && Concat(vs[..0]) == []
      ensures forall j :: 0 <= j < |vs| ==> R.IndexOk(vs[j]) && R.SlotsOk(vs[j], false, false)
    {
      hide R.IndexOk, R.SlotsOk, R.Full, R.Count, Concat, Queue;
      forall j | 0 <= j < |vs| ensures R.IndexOk(vs[j]) && R.SlotsOk(vs[j], false, false) {
        assert PlaceOk(vs[j], j, ti, Quiet, false);
      }
      QueueIsWholeRing(vs, ti, Quiet, false);
      ConcatNothing(vs[..0]);
    }

    static lemma OneMore(vs: seq<R.Block>, i: nat)
      requires BlocksOk(vs) && i < |vs|
      ensures BlocksOk(vs[..i]) && BlocksOk(vs[..i + 1])
      ensures Concat(vs[..i + 1]) == Concat(vs[..i]) + R.Contents(vs[i])
    {
      hide R.IndexOk, R.Contents, Concat;
      ConcatLast(vs[..i + 1]);
      assert vs[..i + 1][..i] == vs[..i];
    }
  }
}
