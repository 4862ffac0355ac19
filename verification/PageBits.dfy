/** Pages and pairs of pages of 64-bit addresses as quotients and remainders, and the masks
    and shifts that compute them. */
module PageBits {
  datatype PageSize = K4 | K16 | K64 | K256 | M1 | M4 | M16

  function SizeBit(size: PageSize): bv64 {
    match size
    case K4 => 0x1000
    case K16 => 0x4000
    case K64 => 0x1_0000
    case K256 => 0x4_0000
    case M1 => 0x10_0000
    case M4 => 0x40_0000
    case M16 => 0x100_0000
  }

  /** The mask of an offset in a page. */
  function OffsetBits(size: PageSize): bv64 {
    match size
    case K4 => 0xFFF
    case K16 => 0x3FFF
    case K64 => 0xFFFF
    case K256 => 0x3_FFFF
    case M1 => 0xF_FFFF
    case M4 => 0x3F_FFFF
    case M16 => 0xFF_FFFF
  }

  /** The mask of an offset in a pair of pages. */
  function PairBits(size: PageSize): bv64 {
    match size
    case K4 => 0x1FFF
    case K16 => 0x7FFF
    case K64 => 0x1_FFFF
    case K256 => 0x7_FFFF
    case M1 => 0x1F_FFFF
    case M4 => 0x7F_FFFF
    case M16 => 0x1FF_FFFF
  }

  /** Whether a page is the even one of its pair. */
  predicate EvenPage(x: bv64, size: PageSize) {
    match size
    case K4 => x / 0x1000 % 2 == 0
    case K16 => x / 0x4000 % 2 == 0
    case K64 => x / 0x1_0000 % 2 == 0
    case K256 => x / 0x4_0000 % 2 == 0
    case M1 => x / 0x10_0000 % 2 == 0
    case M4 => x / 0x40_0000 % 2 == 0
    case M16 => x / 0x100_0000 % 2 == 0
  }

  function InPage(x: bv64, size: PageSize): bv64 {
    match size
    case K4 => x % 0x1000
    case K16 => x % 0x4000
    case K64 => x % 0x1_0000
    case K256 => x % 0x4_0000
    case M1 => x % 0x10_0000
    case M4 => x % 0x40_0000
    case M16 => x % 0x100_0000
  }

  /** The number of a pair of pages, and its first address. */
  function PairNumber(x: bv64, size: PageSize): bv64 {
    match size
    case K4 => x / 0x2000
    case K16 => x / 0x8000
    case K64 => x / 0x2_0000
    case K256 => x / 0x8_0000
    case M1 => x / 0x20_0000
    case M4 => x / 0x80_0000
    case M16 => x / 0x200_0000
  }

  function PairStart(n: bv64, size: PageSize): bv64 {
    match size
    case K4 => n * 0x2000
    case K16 => n * 0x8000
    case K64 => n * 0x2_0000
    case K256 => n * 0x8_0000
    case M1 => n * 0x20_0000
    case M4 => n * 0x80_0000
    case M16 => n * 0x200_0000
  }

  /** The part of an address an entry compares: bits 62 and 63 (the region) above bits 0
      to 39. */
  function Page40(v: bv64): bv64 { v / 0x4000_0000_0000_0000 * 0x100_0000_0000 + v % 0x100_0000_0000 }

  function Masked(x: bv64, m: bv64): bv64 { x & m }

  lemma RegionAndPage(v: bv64)
    ensures (v & 0xFF_FFFF_FFFF) | ((v >> 22) & 0x300_0000_0000) == Page40(v)
  {}

  // ----- Literal masks -----

  lemma Pair4K(x: bv64)
    ensures x / 0x2000 * 0x2000 == x & !0x1FFF
    ensures (x & !0x1FFF) / 0x2000 == x / 0x2000
  {}

  lemma Pair16K(x: bv64)
    ensures x / 0x8000 * 0x8000 == x & !0x7FFF
    ensures (x & !0x7FFF) / 0x8000 == x / 0x8000
  {}

  lemma Pair64K(x: bv64)
    ensures x / 0x2_0000 * 0x2_0000 == x & !0x1_FFFF
    ensures (x & !0x1_FFFF) / 0x2_0000 == x / 0x2_0000
  {}

  lemma Pair256K(x: bv64)
    ensures x / 0x8_0000 * 0x8_0000 == x & !0x7_FFFF
    ensures (x & !0x7_FFFF) / 0x8_0000 == x / 0x8_0000
  {}

  lemma Pair1M(x: bv64)
    ensures x / 0x20_0000 * 0x20_0000 == x & !0x1F_FFFF
    ensures (x & !0x1F_FFFF) / 0x20_0000 == x / 0x20_0000
  {}

  lemma Pair4M(x: bv64)
    ensures x / 0x80_0000 * 0x80_0000 == x & !0x7F_FFFF
    ensures (x & !0x7F_FFFF) / 0x80_0000 == x / 0x80_0000
  {}

  lemma Pair16M(x: bv64)
    ensures x / 0x200_0000 * 0x200_0000 == x & !0x1FF_FFFF
    ensures (x & !0x1FF_FFFF) / 0x200_0000 == x / 0x200_0000
  {}

  lemma Start4K(x: bv64)
    ensures PairStart(PairNumber(x, K4), K4) == Masked(x, !0x1FFF)
  {
    Pair4K(x);
  }

  lemma Number4K(x: bv64)
    ensures PairNumber(Masked(x, !0x1FFF), K4) == PairNumber(x, K4)
  {
    Pair4K(x);
  }

  lemma Parity4K(x: bv64)
    ensures Masked(x, 0x1000) == 0 <==> EvenPage(x, K4)
  {}

  lemma Remainder4K(x: bv64)
    ensures Masked(x, 0xFFF) == InPage(x, K4)
  {}

  lemma Start16K(x: bv64)
    ensures PairStart(PairNumber(x, K16), K16) == Masked(x, !0x7FFF)
  {
    Pair16K(x);
  }

  lemma Number16K(x: bv64)
    ensures PairNumber(Masked(x, !0x7FFF), K16) == PairNumber(x, K16)
  {
    Pair16K(x);
  }

  lemma Parity16K(x: bv64)
    ensures Masked(x, 0x4000) == 0 <==> EvenPage(x, K16)
  {}

  lemma Remainder16K(x: bv64)
    ensures Masked(x, 0x3FFF) == InPage(x, K16)
  {}

  lemma Start64K(x: bv64)
    ensures PairStart(PairNumber(x, K64), K64) == Masked(x, !0x1_FFFF)
  {
    Pair64K(x);
  }

  lemma Number64K(x: bv64)
    ensures PairNumber(Masked(x, !0x1_FFFF), K64) == PairNumber(x, K64)
  {
    Pair64K(x);
  }

  lemma Parity64K(x: bv64)
    ensures Masked(x, 0x1_0000) == 0 <==> EvenPage(x, K64)
  {}

  lemma Remainder64K(x: bv64)
    ensures Masked(x, 0xFFFF) == InPage(x, K64)
  {}

  lemma Start256K(x: bv64)
    ensures PairStart(PairNumber(x, K256), K256) == Masked(x, !0x7_FFFF)
  {
    Pair256K(x);
  }

  lemma Number256K(x: bv64)
    ensures PairNumber(Masked(x, !0x7_FFFF), K256) == PairNumber(x, K256)
  {
    Pair256K(x);
  }

  lemma Parity256K(x: bv64)
    ensures Masked(x, 0x4_0000) == 0 <==> EvenPage(x, K256)
  {}

  lemma Remainder256K(x: bv64)
    ensures Masked(x, 0x3_FFFF) == InPage(x, K256)
  {}

  lemma Start1M(x: bv64)
    ensures PairStart(PairNumber(x, M1), M1) == Masked(x, !0x1F_FFFF)
  {
    Pair1M(x);
  }

  lemma Number1M(x: bv64)
    ensures PairNumber(Masked(x, !0x1F_FFFF), M1) == PairNumber(x, M1)
  {
    Pair1M(x);
  }

  lemma Parity1M(x: bv64)
    ensures Masked(x, 0x10_0000) == 0 <==> EvenPage(x, M1)
  {}

  lemma Remainder1M(x: bv64)
    ensures Masked(x, 0xF_FFFF) == InPage(x, M1)
  {}

  lemma Start4M(x: bv64)
    ensures PairStart(PairNumber(x, M4), M4) == Masked(x, !0x7F_FFFF)
  {
    Pair4M(x);
  }

  lemma Number4M(x: bv64)
    ensures PairNumber(Masked(x, !0x7F_FFFF), M4) == PairNumber(x, M4)
  {
    Pair4M(x);
  }

  lemma Parity4M(x: bv64)
    ensures Masked(x, 0x40_0000) == 0 <==> EvenPage(x, M4)
  {}

  lemma Remainder4M(x: bv64)
    ensures Masked(x, 0x3F_FFFF) == InPage(x, M4)
  {}

  lemma Start16M(x: bv64)
    ensures PairStart(PairNumber(x, M16), M16) == Masked(x, !0x1FF_FFFF)
  {
    Pair16M(x);
  }

  lemma Number16M(x: bv64)
    ensures PairNumber(Masked(x, !0x1FF_FFFF), M16) == PairNumber(x, M16)
  {
    Pair16M(x);
  }

  lemma Parity16M(x: bv64)
    ensures Masked(x, 0x100_0000) == 0 <==> EvenPage(x, M16)
  {}

  lemma Remainder16M(x: bv64)
    ensures Masked(x, 0xFF_FFFF) == InPage(x, M16)
  {}

  // ----- Any size -----

  lemma ParityIs(x: bv64, size: PageSize)
    ensures Masked(x, SizeBit(size)) == 0 <==> EvenPage(x, size)
  {
    hide Masked, EvenPage;
    match size
    case K4 => Parity4K(x);
    case K16 => Parity16K(x);
    case K64 => Parity64K(x);
    case K256 => Parity256K(x);
    case M1 => Parity1M(x);
    case M4 => Parity4M(x);
    case M16 => Parity16M(x);
  }

  lemma RemainderIs(x: bv64, size: PageSize)
    ensures Masked(x, OffsetBits(size)) == InPage(x, size)
  {
    hide Masked, InPage;
    match size
    case K4 => Remainder4K(x);
    case K16 => Remainder16K(x);
    case K64 => Remainder64K(x);
    case K256 => Remainder256K(x);
    case M1 => Remainder1M(x);
    case M4 => Remainder4M(x);
    case M16 => Remainder16M(x);
  }

  lemma StartIs(x: bv64, size: PageSize)
    ensures PairStart(PairNumber(x, size), size) == Masked(x, !PairBits(size))
  {
    hide Masked, PairStart, PairNumber;
    match size
    case K4 => Start4K(x);
    case K16 => Start16K(x);
    case K64 => Start64K(x);
    case K256 => Start256K(x);
    case M1 => Start1M(x);
    case M4 => Start4M(x);
    case M16 => Start16M(x);
  }

  lemma NumberIs(x: bv64, size: PageSize)
    ensures PairNumber(Masked(x, !PairBits(size)), size) == PairNumber(x, size)
  {
    hide Masked, PairNumber;
    match size
    case K4 => Number4K(x);
    case K16 => Number16K(x);
    case K64 => Number64K(x);
    case K256 => Number256K(x);
    case M1 => Number1M(x);
    case M4 => Number4M(x);
    case M16 => Number16M(x);
  }

  /** Masking off the offset in a pair compares numbers of pairs. */
  lemma SamePairIff(x: bv64, y: bv64, size: PageSize)
    ensures Masked(x, !PairBits(size)) == Masked(y, !PairBits(size)) <==> PairNumber(x, size) == PairNumber(y, size)
  {
    StartIs(x, size);
    StartIs(y, size);
    NumberIs(x, size);
    NumberIs(y, size);
    hide *;
  }

  // Or is addition without carries: the two agree exactly on disjoint bits.

  function Or(f: bv64, o: bv64): bv64 { f | o }

  function Sum(f: bv64, o: bv64): bv64 { f + o }

  lemma Disjoint(f: bv64, o: bv64)
    requires Masked(f, o) == 0
    ensures Or(f, o) == Sum(f, o)
  {
    DisjointBits(f, o);
  }

  lemma DisjointBits(f: bv64, o: bv64)
    requires f & o == 0
    ensures f | o == f + o
  {}

  lemma Shared(f: bv64, o: bv64)
    requires Masked(f, o) != 0
    ensures Or(f, o) != Sum(f, o)
  {}

  lemma ClearBits(f: bv64, x: bv64, m: bv64)
    requires Masked(f, m) == 0
    ensures Masked(f, Masked(x, m)) == 0
  {}

  /** Frame and offset joined by or are their sum exactly on disjoint bits, and so in a
      frame aligned to the page. */
  lemma OrIsSumIff(f: bv64, x: bv64, size: PageSize)
    ensures Or(f, InPage(x, size)) == Sum(f, InPage(x, size)) <==> Masked(f, InPage(x, size)) == 0
    ensures InPage(f, size) == 0 ==> Masked(f, InPage(x, size)) == 0
  {
    RemainderIs(f, size);
    RemainderIs(x, size);
    if Masked(f, InPage(x, size)) == 0 {
      Disjoint(f, InPage(x, size));
    } else {
      Shared(f, InPage(x, size));
    }
    if InPage(f, size) == 0 {
      ClearBits(f, x, OffsetBits(size));
    }
    hide *;
  }
}
