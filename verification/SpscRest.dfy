/** The concurrent queue at rest: what the destructor and `size_approx` find when no
    operation is in progress, after any concurrent run. */
module SpscRest {
  import opened Elements
  import opened Words
  import opened Blocks
  import opened Rings
  import opened Spsc
  import opened SpscInvariant
  import opened SpscTheorems

  predicate AtRest(c: Config) { c.s.p.PIdle? && c.s.c.CIdle? }

  /** The elements the destructor meets from block `b` on (149-164): block after
      block along `next` until it is back at `frontBlock`, and in each block from
      `front` to `tail`; `fuel` bounds the walk. */
  ghost function WalkRing(m: Memory, b: int, fuel: nat): seq<Elem>
    decreases fuel
  {
    if fuel == 0 || !(0 <= b < |m.blocks|) || b >= |m.next| || !IndexOk(m.blocks[b]) then []
    else Contents(m.blocks[b]) + (if m.next[b] == m.frontBlock then [] else WalkRing(m, m.next[b], fuel - 1))
  }

  /** The sum `size_approx` computes from block `b` on (419-425), in words of `w` bits. */
  ghost function SumRing(m: Memory, b: int, w: nat, sum: nat, fuel: nat): nat
    decreases fuel
  {
    if fuel == 0 || !(0 <= b < |m.blocks|) || b >= |m.next| then sum
    else
      var next := Wrap(sum + MaskedCount(m.blocks[b], w), w);
      if m.next[b] == m.frontBlock then next else SumRing(m, m.next[b], w, next, fuel - 1)
  }

  lemma NextPlace(m: Memory, ring: seq<int>, ti: int, i: int)
    requires Linked(m, ring, ti, false) && 0 <= i < |ring|
    ensures 0 <= ring[i] < |m.blocks| == |m.next| && m.next[ring[i]] == ring[Inc(i, |ring|)]
    ensures m.next[ring[i]] == m.frontBlock <==> i + 1 == |ring|
    ensures m.frontBlock == ring[0]
  {
    if i + 1 < |ring| { assert ring[0] != ring[i + 1]; }
  }

  lemma {:induction false} WalkRingFrom(m: Memory, ring: seq<int>, ti: int, i: int, fuel: nat)
    requires Linked(m, ring, ti, false) && BlocksOk(View(m.blocks, ring))
    requires 0 <= i < |ring| && fuel >= |ring| - i
    ensures WalkRing(m, ring[i], fuel) == Concat(View(m.blocks, ring)[i..|ring|])
    decreases |ring| - i
  {
    hide IndexOk, Contents, Concat, View;
    var vs := View(m.blocks, ring);
    NextPlace(m, ring, ti, i);
    assert vs[i] == m.blocks[ring[i]] && IndexOk(vs[i]);
    ConcatSlice(vs, i, |ring|);
    if i + 1 < |ring| { WalkRingFrom(m, ring, ti, i + 1, fuel - 1); }
  }

  lemma {:induction false} SumRingFrom(m: Memory, ring: seq<int>, ti: int, i: int, w: nat, before: nat, fuel: nat)
    requires Linked(m, ring, ti, false) && BlocksOk(View(m.blocks, ring))
    requires forall b :: 0 <= b < |m.blocks| ==> |m.blocks[b].slots| <= Pow2(w)
    requires 0 <= i < |ring| && fuel >= |ring| - i
    ensures SumRing(m, ring[i], w, Wrap(before, w), fuel)
      == Wrap(before + |Concat(View(m.blocks, ring)[i..|ring|])|, w)
    decreases |ring| - i
  {
    hide IndexOk, Contents, Concat, View, Wrap, Pow2, MaskedCount, Count;
    var vs := View(m.blocks, ring);
    NextPlace(m, ring, ti, i);
    assert vs[i] == m.blocks[ring[i]] && IndexOk(vs[i]);
    ConcatSlice(vs, i, |ring|);
    MaskedCountExact(vs[i], w);
    WrapPlus(before, Count(vs[i]), w);
    if i + 1 < |ring| { SumRingFrom(m, ring, ti, i + 1, w, before + Count(vs[i]), fuel - 1); }
  }

  lemma WholeRing(c: Config, k: Setup, w: nat)
    requires Inv(c, k) && AtRest(c) && HasQueue(c)
    ensures WalkRing(c.s.m, c.s.m.frontBlock, |c.s.m.blocks|) == AbstractQueue(c)
    ensures 2 * c.s.m.maxBlock <= Pow2(w) ==>
      SumRing(c.s.m, c.s.m.frontBlock, w, 0, |c.s.m.blocks|) == Wrap(|AbstractQueue(c)|, w)
  {
    hide Usable, Roomy, RoomOk, ProducerKnows, ConsumerKnows, PeekOk, WalkRing, SumRing;
    hide Concat, IndexOk, Pow2, RingInv, Wrap;
    var m, ring, vs := c.s.m, c.h.ring, View(c.s.m.blocks, c.h.ring);
    WalkRingFrom(m, ring, c.h.ti, 0, |m.blocks|);
    assert vs[0..|ring|] == vs;
    QueueIsWholeRing(vs, c.h.ti, PhaseOf(c.s.p), HoleOf(c.s.c));
    if 2 * m.maxBlock <= Pow2(w) {
      assert Wrap(0, w) == 0;
      SumRingFrom(m, ring, c.h.ti, 0, w, 0, |m.blocks|);
    }
  }

  /** After any concurrent run, with no operation in progress: the destructor's walk
      meets exactly the elements enqueued and not removed, oldest first; the slots it
      destroys, those from `front` to `tail`, are exactly the live ones of all
      blocks. So every element constructed in the queue's storage is destroyed once:
      those removed by the consumer before, in order, and the others now. */
  lemma TeardownConserves(c: Config, maxSize: nat, maxBlock: nat)
    requires Reachable(c, maxSize, maxBlock) && AtRest(c)
    ensures var m := c.s.m;
      && WalkRing(m, m.frontBlock, |m.blocks|) == WalkQueue(m, m.frontBlock, |m.blocks|)
      && c.h.enqueued == c.h.removed + WalkRing(m, m.frontBlock, |m.blocks|)
      && forall b, j :: 0 <= b < |m.blocks| && 0 <= j < |m.blocks[b].slots| ==>
           (m.blocks[b].slots[j].live <==>
             0 <= Dist(m.blocks[b].front, j, |m.blocks[b].slots|) < Count(m.blocks[b]))
  {
    hide Inv, Reachable, HasQueue, AbstractQueue, WalkRing, WalkQueue, Dist, Count;
    var k := ReachableInv(c, maxSize, maxBlock);
    InvHasQueue(c, k);
    WalkIsQueue(c, k);
    WholeRing(c, k, 0);
    forall b, j | 0 <= b < |c.s.m.blocks| && 0 <= j < |c.s.m.blocks[b].slots|
      ensures c.s.m.blocks[b].slots[j].live <==>
        0 <= Dist(c.s.m.blocks[b].front, j, |c.s.m.blocks[b].slots|) < Count(c.s.m.blocks[b])
    {
      LiveAtRest(c, k, b, j);
    }
  }

  lemma LiveAtRest(c: Config, k: Setup, b: int, j: int)
    requires Inv(c, k) && AtRest(c) && 0 <= b < |c.s.m.blocks| && 0 <= j < |c.s.m.blocks[b].slots|
    ensures c.s.m.blocks[b].slots[j].live <==>
      0 <= Dist(c.s.m.blocks[b].front, j, |c.s.m.blocks[b].slots|) < Count(c.s.m.blocks[b])
  {
    hide Inv, IndexOk, SlotsOk;
    BlockSound(c, k, b);
    assert !Constructing(c.s.p, b) && !Destroying(c.s.c, b);
    LiveIsElement(c.s.m.blocks[b], j);
  }

  /** After any concurrent run, with no operation in progress, `size_approx` computes
      the length of the queue, as far as a word of `w` bits can hold it. */
  lemma SizeAtRest(c: Config, maxSize: nat, maxBlock: nat, w: nat)
    requires Reachable(c, maxSize, maxBlock) && AtRest(c) && 2 * maxBlock <= Pow2(w)
    ensures var m := c.s.m;
      SumRing(m, m.frontBlock, w, 0, |m.blocks|) == Wrap(|WalkQueue(m, m.frontBlock, |m.blocks|)|, w)
  {
    hide Inv, Reachable, HasQueue, AbstractQueue, SumRing, WalkQueue, Pow2, Wrap, WalkRing, AtRest;
    var k := ReachableInv(c, maxSize, maxBlock);
    InvHasQueue(c, k);
    WalkIsQueue(c, k);
    WholeRing(c, k, w);
  }
}
