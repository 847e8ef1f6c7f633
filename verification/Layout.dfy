/** Where `make_block` puts a block's header and its slots inside the memory it
    asks for. Addresses and sizes are numbers; the size computation is taken not to
    overflow. */
module Layout {
  import opened Words

  /** `align_for` (include/readerwriterqueue.h:553-558). */
  function AlignFor(ptr: nat, alignment: nat): nat
    requires alignment > 0
  {
    ptr + (alignment - ptr % alignment) % alignment
  }

  /** It returns the least aligned address that is not below `ptr`, less than one
      alignment away. */
  lemma AlignForLeast(ptr: nat, alignment: nat)
    requires alignment > 0
    ensures var r := AlignFor(ptr, alignment);
      && r % alignment == 0 && ptr <= r < ptr + alignment
      && forall q: nat :: q >= ptr && q % alignment == 0 ==> r <= q
  {
    var q0, m := ptr / alignment, ptr % alignment;
    assert ptr == q0 * alignment + m;
    if m == 0 {
      ModUnique(alignment, 1, alignment, 0);
    } else {
      ModUnique(alignment - m, 0, alignment, alignment - m);
      assert (q0 + 1) * alignment == q0 * alignment + alignment;
      ModUnique(ptr + (alignment - m), q0 + 1, alignment, 0);
      forall q: nat | q >= ptr && q % alignment == 0 ensures ptr + (alignment - m) <= q {
        NoMultipleBetween(q / alignment, q0, m, alignment);
      }
    }
  }

  lemma NoMultipleBetween(k: int, q0: int, m: int, n: int)
    requires 0 < m < n && k * n >= q0 * n + m
    ensures k * n >= q0 * n + n
  {
    if k <= q0 {
      MulMonotone(k, q0, n);
      assert false;
    }
    MulMonotone(q0 + 1, k, n);
  }

  /** The sizes and alignments of the block header and of an element. */
  datatype Sizes = Sizes(block: nat, blockAlign: nat, elem: nat, elemAlign: nat)

  ghost predicate SizesOk(s: Sizes) {
    s.blockAlign > 0 && s.elemAlign > 0 && s.elem > 0 && s.elem % s.elemAlign == 0
  }

  /** The amount of memory asked for (616-617). */
  function Request(s: Sizes, capacity: nat): nat
    requires SizesOk(s)
  {
    (s.block + s.blockAlign - 1) + (s.elem * capacity + s.elemAlign - 1)
  }

  function HeaderAt(s: Sizes, raw: nat): nat
    requires SizesOk(s)
  {
    AlignFor(raw, s.blockAlign)
  }

  function DataAt(s: Sizes, raw: nat): nat
    requires SizesOk(s)
  {
    AlignFor(HeaderAt(s, raw) + s.block, s.elemAlign)
  }

  /** For every raw address, header size, element size, alignment and capacity:
      header and slots are aligned, do not overlap, and lie wholly inside the
      memory asked for, of which no more than the alignment padding is left over. */
  lemma BlockFits(s: Sizes, raw: nat, capacity: nat)
    requires SizesOk(s)
    ensures HeaderAt(s, raw) % s.blockAlign == 0 && DataAt(s, raw) % s.elemAlign == 0
    ensures raw <= HeaderAt(s, raw) && HeaderAt(s, raw) + s.block <= DataAt(s, raw)
    ensures DataAt(s, raw) + s.elem * capacity <= raw + Request(s, capacity)
    ensures HeaderAt(s, raw) - raw < s.blockAlign
    ensures DataAt(s, raw) - (HeaderAt(s, raw) + s.block) < s.elemAlign
    ensures raw + Request(s, capacity) - (DataAt(s, raw) + s.elem * capacity) < s.blockAlign + s.elemAlign - 1
  {
    AlignForLeast(raw, s.blockAlign);
    AlignForLeast(HeaderAt(s, raw) + s.block, s.elemAlign);
  }

  /** A whole number of elements after an aligned address is an aligned address. */
  lemma StrideAligned(base: nat, i: nat, size: nat, alignment: nat)
    requires alignment > 0 && base % alignment == 0 && size % alignment == 0
    ensures (base + i * size) % alignment == 0
  {
    var d, e := base / alignment, size / alignment;
    assert base == d * alignment && size == e * alignment;
    assert i * size == (i * e) * alignment;
    assert base + i * size == (d + i * e) * alignment;
    ModUnique(base + i * size, d + i * e, alignment, 0);
  }

  /** Every slot is aligned for its element, inside the memory asked for, behind the
      header, and apart from every other slot. */
  lemma SlotsFit(s: Sizes, raw: nat, capacity: nat, i: nat, j: nat)
    requires SizesOk(s) && i < capacity && j < capacity
    ensures var at := DataAt(s, raw) + i * s.elem;
      && at % s.elemAlign == 0
      && HeaderAt(s, raw) + s.block <= at && at + s.elem <= raw + Request(s, capacity)
      && (i < j ==> at + s.elem <= DataAt(s, raw) + j * s.elem)
  {
    hide DataAt, HeaderAt, Request;
    BlockFits(s, raw, capacity);
    StrideAligned(DataAt(s, raw), i, s.elem, s.elemAlign);
    MulMonotone(i + 1, capacity, s.elem);
    MulMonotone(i, i, s.elem);
    MulMonotone(0, i, s.elem);
    if i < j { MulMonotone(i + 1, j, s.elem); }
  }

  /** A block made for no elements, as the constructor asks for it when the rounding of
      `maxSize + 1` wraps to 0: with a size mask of 0 - 1 in a word of `w` bits the
      test at 451-452 finds room in it, but an element larger than the alignment
      padding does not fit. */
  lemma NoSlotFits(s: Sizes, raw: nat, w: nat)
    requires SizesOk(s) && w >= 1
    ensures And(0 + 1, Wrap(0 - 1, w)) == 1
    ensures s.elem > s.blockAlign - 1 + s.elemAlign - 1 ==>
      DataAt(s, raw) + s.elem > raw + Request(s, 0)
  {
    hide And;
    BlockFits(s, raw, 0);
    WrapIsMod(-1, w);
    ModUnique(-1, -1, Pow2(w), Pow2(w) - 1);
    AndMask(1, w);
    Pow2Monotone(1, w);
    ModUnique(1, 0, Pow2(w), 1);
  }
}
