/** The type of the elements queued. Nothing is assumed about them but equality. */
module Elements {
  type Elem(==, !new)

  datatype Option<T> = None | Some(value: T)
}

/** One block of the queue: a circular buffer of a power-of-two number of slots,
    seen as a value. */
module Blocks {
  import opened Elements
  import opened Words

  /** Raw storage for one element. Destroying the element ends its lifetime but
      leaves its bytes where they are. */
  datatype Slot = Slot(live: bool, val: Elem)

  datatype Block = Block(front: nat, localTail: nat, tail: nat, localFront: nat, slots: seq<Slot>)

  /** How many steps lead from index `a` forward to index `b` in a circle of `n`. */
  function Dist(a: int, b: int, n: int): int {
    if b >= a then b - a else b + n - a
  }

  /** The index `k` steps after `i` in a circle of `n`. */
  function StepsFrom(i: int, k: int, n: int): int {
    if i + k < n then i + k else i + k - n
  }

  function Count(b: Block): int {
    Dist(b.front, b.tail, |b.slots|)
  }

  /** The slots that can be in use at once: one is always wasted. */
  function Capacity(b: Block): int {
    |b.slots| - 1
  }

  /** Both shadow indices trail the index they copy: going round the circle from
      `localFront` one meets `front`, then `localTail`, then `tail`. */
  ghost predicate IndexOk(b: Block) {
    var n := |b.slots|;
    && n >= 2 && IsPow2(n)
    && b.front < n && b.tail < n && b.localFront < n && b.localTail < n
    && Dist(b.localFront, b.front, n) + Count(b) == Dist(b.localFront, b.tail, n)
    && Dist(b.front, b.localTail, n) <= Count(b)
  }

  lemma IndicesInRange(b: Block)
    requires IndexOk(b)
    ensures |b.slots| >= 2 && b.front < |b.slots| && b.tail < |b.slots|
  {
  }

  ghost predicate Full(b: Block) {
    Count(b) == Capacity(b)
  }

  /** A slot holds a live object exactly if it lies between `front` and `tail`.
      In the producer's window between construction and publication
      (`constructed`) the slot at `tail` is live too; in the consumer's window
      between destruction and publication (`destroyed`) the slot at `front` is
      not. */
  ghost predicate SlotsOk(b: Block, constructed: bool, destroyed: bool) {
    forall j :: 0 <= j < |b.slots| ==>
      (b.slots[j].live <==>
        || (constructed && j == b.tail)
        || (Dist(b.front, j, |b.slots|) < Count(b) && !(destroyed && j == b.front)))
  }

  ghost function Contents(b: Block): (s: seq<Elem>)
    requires IndexOk(b)
    ensures |s| == Count(b)
  {
    seq(Count(b), k requires 0 <= k < Count(b) => b.slots[StepsFrom(b.front, k, |b.slots|)].val)
  }

  /** The length of a block as `size_approx` computes it: the difference of the
      indices wraps round a word of `w` bits and is then masked. */
  function MaskedCount(b: Block, w: nat): nat {
    And(Wrap(b.tail - b.front, w), if |b.slots| > 0 then |b.slots| - 1 else 0)
  }

  /** It is the number of elements in the block. */
  lemma MaskedCountExact(b: Block, w: nat)
    requires IndexOk(b) && |b.slots| <= Pow2(w)
    ensures MaskedCount(b, w) == Count(b)
  {
    hide IsPow2, And, Pow2, Wrap;
    WrappedDistance(b.tail, b.front, |b.slots|, w);
  }

  /** Element `k` of a block: where it is, that it is alive, and where the walk from
      `front` to `tail` goes next. */
  lemma ElementAt(b: Block, k: int, i: int)
    requires IndexOk(b) && SlotsOk(b, false, false)
    requires 0 <= k <= Count(b) && i == StepsFrom(b.front, k, |b.slots|)
    ensures 0 <= i < |b.slots| && (i == b.tail <==> k == Count(b))
    ensures forall j :: 0 <= j < |b.slots| ==> (Dist(b.front, j, |b.slots|) == k <==> j == i)
    ensures k < Count(b) ==>
      && b.slots[i].live && b.slots[i].val == Contents(b)[k]
      && MaskInc(i, |b.slots|) == StepsFrom(b.front, k + 1, |b.slots|)
  {
  }

  /** Every live slot is one of them. */
  lemma LiveIsElement(b: Block, j: int)
    requires IndexOk(b) && SlotsOk(b, false, false) && 0 <= j < |b.slots|
    ensures b.slots[j].live <==> 0 <= Dist(b.front, j, |b.slots|) < Count(b)
  {
  }

  /** The two-part test of the producer: the stale `localFront` is consulted
      first, `front` only if that leaves no room. */
  function ProducerTest(b: Block): bool
    requires |b.slots| > 0
  {
    MaskInc(b.tail, |b.slots|) != b.localFront || MaskInc(b.tail, |b.slots|) != b.front
  }

  /** The two-part test of the consumer, with the stale `localTail`. */
  function ConsumerTest(b: Block): bool {
    b.front != b.localTail || b.front != b.tail
  }

  /** Undisturbed, the two-part tests decide exactly whether there is room and
      whether there is an element. */
  lemma ShadowTestsExact(b: Block)
    requires IndexOk(b)
    ensures ProducerTest(b) <==> !Full(b)
    ensures ConsumerTest(b) <==> Count(b) > 0
  {
  }

  // ---- What the four stores into a block do to its contents ----

  function Constructed(b: Block, v: Elem): Block
    requires b.tail < |b.slots|
  {
    b.(slots := b.slots[b.tail := Slot(true, v)])
  }

  function Destroyed(b: Block): Block
    requires b.front < |b.slots|
  {
    b.(slots := b.slots[b.front := b.slots[b.front].(live := false)])
  }

  function TailStored(b: Block): Block
    requires |b.slots| > 0
  {
    b.(tail := MaskInc(b.tail, |b.slots|))
  }

  function FrontStored(b: Block): Block
    requires |b.slots| > 0
  {
    b.(front := MaskInc(b.front, |b.slots|))
  }

  lemma ConstructKeeps(b: Block, v: Elem, destroyed: bool)
    requires IndexOk(b) && SlotsOk(b, false, destroyed) && !Full(b)
    requires destroyed ==> Count(b) > 0
    ensures !b.slots[b.tail].live
    ensures IndexOk(Constructed(b, v)) && SlotsOk(Constructed(b, v), true, destroyed)
    ensures Contents(Constructed(b, v)) == Contents(b)
  {
  }

  lemma TailStoreAppends(b: Block, destroyed: bool)
    requires IndexOk(b) && SlotsOk(b, true, destroyed)
    requires Dist(b.localFront, b.tail, |b.slots|) < Capacity(b)
    requires destroyed ==> Count(b) > 0
    ensures IndexOk(TailStored(b)) && SlotsOk(TailStored(b), false, destroyed)
    ensures Count(TailStored(b)) == Count(b) + 1
    ensures Contents(TailStored(b)) == Contents(b) + [b.slots[b.tail].val]
  {
    assert MaskInc(b.tail, |b.slots|) == Inc(b.tail, |b.slots|);
    hide MaskInc, IsPow2;
  }

  lemma DestroyKeeps(b: Block, constructed: bool)
    requires IndexOk(b) && SlotsOk(b, constructed, false) && Count(b) > 0
    ensures b.slots[b.front].live && b.slots[b.front].val == Contents(b)[0]
    ensures IndexOk(Destroyed(b)) && SlotsOk(Destroyed(b), constructed, true)
    ensures Contents(Destroyed(b)) == Contents(b)
  {
  }

  lemma FrontStoreDrops(b: Block, constructed: bool)
    requires IndexOk(b) && SlotsOk(b, constructed, true) && Count(b) > 0
    requires Dist(b.front, b.localTail, |b.slots|) > 0
    ensures IndexOk(FrontStored(b)) && SlotsOk(FrontStored(b), constructed, false)
    ensures Count(FrontStored(b)) == Count(b) - 1
    ensures Contents(FrontStored(b)) == Contents(b)[1..]
  {
    assert MaskInc(b.front, |b.slots|) == Inc(b.front, |b.slots|);
    hide MaskInc, IsPow2;
  }
}
