/** Machine words as byte strings: what shifting by whole bytes and merging under a
    mask do to each byte of a 4-byte or 8-byte cell. */
module ByteCells {
  import opened Swizzle

  /** `8 * k` as a shift count. */
  function Bits(k: nat): bv64
    requires k < 8
  {
    match k
    case 0 => 0 case 1 => 8 case 2 => 16 case 3 => 24
    case 4 => 32 case 5 => 40 case 6 => 48 case _ => 56
  }

  lemma MergeByte(x: byte, mask: byte, y: byte)
    requires mask == 0xFF || (mask == 0 && y == 0)
    ensures (x & !mask) | y == if mask == 0 then x else y
  {}

  // ----- 4-byte cells -----

  const WORD_ONES: bv32 := 0xFFFF_FFFF

  function WordShl(x: bv32, k: nat): bv32
    requires k < 4
  {
    x << Bits(k)
  }

  function WordShr(x: bv32, k: nat): bv32
    requires k < 4
  {
    x >> Bits(k)
  }

  function WordUp(x: bv32): bv32 { x << 8 }

  function WordDown(x: bv32): bv32 { x >> 8 }

  /** `y` inside the mask, `x` outside it. */
  function WordMerge(x: bv32, mask: bv32, y: bv32): bv32 { (x & !mask) | y }

  function WordLast(x: bv32): byte { (x & 0xFF) as byte }

  /** Byte `i` of a cell, the most significant first. */
  function WordByte(x: bv32, i: nat): byte
    requires i < 4
  {
    WordLast(WordShr(x, 3 - i))
  }

  function WordBytes(x: bv32): (b: Bytes)
    ensures |b| == 4 && forall i :: 0 <= i < 4 ==> b[i] == WordByte(x, i)
  {
    seq(4, i requires 0 <= i < 4 => WordByte(x, i))
  }

  function WordOf(b: Bytes): bv32
    requires |b| == 4
  {
    ((b[0] as bv32) << 24) | ((b[1] as bv32) << 16) | ((b[2] as bv32) << 8) | (b[3] as bv32)
  }

  lemma WordOfByte(b: Bytes, i: nat)
    requires |b| == 4 && i < 4
    ensures WordByte(WordOf(b), i) == b[i]
  {
    if i == 0 {} else if i == 1 {} else if i == 2 {} else {}
  }

  lemma WordSame(x: bv32, y: bv32)
    requires forall i :: 0 <= i < 4 ==> WordByte(x, i) == WordByte(y, i)
    ensures x == y
  {
    assert WordByte(x, 0) == WordByte(y, 0) && WordByte(x, 1) == WordByte(y, 1) && WordByte(x, 2) == WordByte(y, 2) && WordByte(x, 3) == WordByte(y, 3);
  }

  /** A cell is its bytes. */
  lemma WordIsItsBytes(x: bv32, b: Bytes)
    requires |b| == 4
    ensures WordBytes(x) == b <==> x == WordOf(b)
  {
    hide WordByte, WordOf;
    forall i | 0 <= i < 4 ensures WordByte(WordOf(b), i) == b[i] {
      WordOfByte(b, i);
    }
    if WordBytes(x) == b {
      WordSame(x, WordOf(b));
    }
  }

  lemma WordStepBits(x: bv32, i: nat)
    requires i < 4
    ensures (((x << 8) >> Bits(3 - i)) & 0xFF) as byte == if i < 3 then ((x >> Bits(3 - 1 - i)) & 0xFF) as byte else 0
    ensures (((x >> 8) >> Bits(3 - i)) & 0xFF) as byte == if i > 0 then ((x >> Bits(4 - i)) & 0xFF) as byte else 0
  {
    if i == 0 {} else if i == 1 {} else if i == 2 {} else {}
  }

  lemma WordStep(x: bv32, i: nat)
    requires i < 4
    ensures WordByte(WordUp(x), i) == if i < 3 then WordByte(x, i + 1) else 0
    ensures WordByte(WordDown(x), i) == if i > 0 then WordByte(x, i - 1) else 0
  {
    WordStepBits(x, i);
    hide Bits;
  }

  lemma WordBitsUp(x: bv32, k: nat)
    requires k < 3
    ensures x << Bits(k + 1) == (x << Bits(k)) << 8
  {
    if k == 0 {} else if k == 1 {} else {}
  }

  lemma WordComposeUp(x: bv32, k: nat)
    requires k < 3
    ensures WordShl(x, k + 1) == WordUp(WordShl(x, k))
  {
    WordBitsUp(x, k);
    hide Bits;
  }

  lemma WordBitsDown(x: bv32, k: nat)
    requires k < 3
    ensures x >> Bits(k + 1) == (x >> Bits(k)) >> 8
  {
    if k == 0 {} else if k == 1 {} else {}
  }

  lemma WordComposeDown(x: bv32, k: nat)
    requires k < 3
    ensures WordShr(x, k + 1) == WordDown(WordShr(x, k))
  {
    WordBitsDown(x, k);
    hide Bits;
  }

  lemma WordShiftZero(x: bv32)
    ensures WordShl(x, 0) == x && WordShr(x, 0) == x
  {}

  lemma {:induction false} WordShiftLeft(x: bv32, k: nat, i: nat)
    requires k < 4 && i < 4
    ensures WordByte(WordShl(x, k), i) == if i + k < 4 then WordByte(x, i + k) else 0
    decreases k
  {
    WordShiftZero(x);
    hide WordByte, WordShl, WordShr, WordUp, WordDown;
    if k > 0 {
      WordComposeUp(x, k - 1);
      WordStep(WordShl(x, k - 1), i);
      if i < 3 {
        WordShiftLeft(x, k - 1, i + 1);
      }
    }
  }

  lemma {:induction false} WordShiftRight(x: bv32, k: nat, i: nat)
    requires k < 4 && i < 4
    ensures WordByte(WordShr(x, k), i) == if i >= k then WordByte(x, i - k) else 0
    decreases k
  {
    WordShiftZero(x);
    hide WordByte, WordShl, WordShr, WordUp, WordDown;
    if k > 0 {
      WordComposeDown(x, k - 1);
      WordStep(WordShr(x, k - 1), i);
      if i > 0 {
        WordShiftRight(x, k - 1, i - 1);
      }
    }
  }

  lemma WordMergeBits(x: bv32, mask: bv32, y: bv32)
    ensures ((x & !mask) | y) >> 8 == ((x >> 8) & !(mask >> 8)) | (y >> 8)
    ensures (((x & !mask) | y) & 0xFF) as byte == (((x & 0xFF) as byte) & !((mask & 0xFF) as byte)) | ((y & 0xFF) as byte)
  {}

  lemma WordMergeStep(x: bv32, mask: bv32, y: bv32)
    ensures WordDown(WordMerge(x, mask, y)) == WordMerge(WordDown(x), WordDown(mask), WordDown(y))
    ensures WordLast(WordMerge(x, mask, y)) == (WordLast(x) & !WordLast(mask)) | WordLast(y)
  {
    WordMergeBits(x, mask, y);
  }

  lemma {:induction false} WordMergeShift(x: bv32, mask: bv32, y: bv32, k: nat)
    requires k < 4
    ensures WordShr(WordMerge(x, mask, y), k) == WordMerge(WordShr(x, k), WordShr(mask, k), WordShr(y, k))
  {
    if k == 0 {
      WordShiftZero(x);
      WordShiftZero(y);
      WordShiftZero(mask);
      WordShiftZero(WordMerge(x, mask, y));
    } else {
      WordMergeShift(x, mask, y, k - 1);
      WordComposeDown(x, k - 1);
      WordComposeDown(y, k - 1);
      WordComposeDown(mask, k - 1);
      WordComposeDown(WordMerge(x, mask, y), k - 1);
      WordMergeStep(WordShr(x, k - 1), WordShr(mask, k - 1), WordShr(y, k - 1));
    }
    hide WordMerge, WordShr, WordDown;
  }

  /** What an unaligned access does to each byte. */
  lemma WordMergedByte(x: bv32, mask: bv32, y: bv32, i: nat)
    requires i < 4 && (WordByte(mask, i) == 0xFF || (WordByte(mask, i) == 0 && WordByte(y, i) == 0))
    ensures WordByte(WordMerge(x, mask, y), i) == if WordByte(mask, i) == 0 then WordByte(x, i) else WordByte(y, i)
  {
    WordMergeShift(x, mask, y, 3 - i);
    WordMergeStep(WordShr(x, 3 - i), WordShr(mask, 3 - i), WordShr(y, 3 - i));
    hide WordMerge, WordShr, WordLast;
    MergeByte(WordByte(x, i), WordByte(mask, i), WordByte(y, i));
  }

  lemma WordAllOnes(i: nat)
    requires i < 4
    ensures WordByte(WORD_ONES, i) == 0xFF
  {
    if i == 0 {} else if i == 1 {} else if i == 2 {} else {}
  }

  /** Merging under a mask shifted up by `k` bytes: the lower bytes of `y`, then the
      lowest `k` bytes of `x`. */
  lemma WordMergeUp(x: bv32, y: bv32, k: nat)
    requires k < 4
    ensures WordBytes(WordMerge(x, WordShl(WORD_ONES, k), WordShl(y, k))) == WordBytes(y)[k..] + WordBytes(x)[4 - k..]
  {
    hide WordByte, WordShl, WordMerge;
    forall i | 0 <= i < 4
      ensures WordByte(WordMerge(x, WordShl(WORD_ONES, k), WordShl(y, k)), i) == if i + k < 4 then WordByte(y, i + k) else WordByte(x, i)
    {
      WordShiftLeft(WORD_ONES, k, i);
      WordShiftLeft(y, k, i);
      if i + k < 4 {
        WordAllOnes(i + k);
      }
      WordMergedByte(x, WordShl(WORD_ONES, k), WordShl(y, k), i);
    }
  }

  /** Merging under a mask shifted down by `k` bytes: the uppermost `k` bytes of `x`,
      then the upper bytes of `y`. */
  lemma WordMergeDown(x: bv32, y: bv32, k: nat)
    requires k < 4
    ensures WordBytes(WordMerge(x, WordShr(WORD_ONES, k), WordShr(y, k))) == WordBytes(x)[..k] + WordBytes(y)[..4 - k]
  {
    hide WordByte, WordShr, WordMerge;
    forall i | 0 <= i < 4
      ensures WordByte(WordMerge(x, WordShr(WORD_ONES, k), WordShr(y, k)), i) == if i >= k then WordByte(y, i - k) else WordByte(x, i)
    {
      WordShiftRight(WORD_ONES, k, i);
      WordShiftRight(y, k, i);
      if i >= k {
        WordAllOnes(i - k);
      }
      WordMergedByte(x, WordShr(WORD_ONES, k), WordShr(y, k), i);
    }
  }

  // ----- 8-byte cells -----

  const DWORD_ONES: bv64 := 0xFFFF_FFFF_FFFF_FFFF

  function DwordShl(x: bv64, k: nat): bv64
    requires k < 8
  {
    x << Bits(k)
  }

  function DwordShr(x: bv64, k: nat): bv64
    requires k < 8
  {
    x >> Bits(k)
  }

  function DwordUp(x: bv64): bv64 { x << 8 }

  function DwordDown(x: bv64): bv64 { x >> 8 }

  /** `y` inside the mask, `x` outside it. */
  function DwordMerge(x: bv64, mask: bv64, y: bv64): bv64 { (x & !mask) | y }

  function DwordLast(x: bv64): byte { (x & 0xFF) as byte }

  /** Byte `i` of a cell, the most significant first. */
  function DwordByte(x: bv64, i: nat): byte
    requires i < 8
  {
    DwordLast(DwordShr(x, 7 - i))
  }

  function DwordBytes(x: bv64): (b: Bytes)
    ensures |b| == 8 && forall i :: 0 <= i < 8 ==> b[i] == DwordByte(x, i)
  {
    seq(8, i requires 0 <= i < 8 => DwordByte(x, i))
  }

  function DwordOf(b: Bytes): bv64
    requires |b| == 8
  {
    ((b[0] as bv64) << 56) | ((b[1] as bv64) << 48) | ((b[2] as bv64) << 40) | ((b[3] as bv64) << 32)
    | ((b[4] as bv64) << 24) | ((b[5] as bv64) << 16) | ((b[6] as bv64) << 8) | (b[7] as bv64)
  }

  lemma DwordOfByte(b: Bytes, i: nat)
    requires |b| == 8 && i < 8
    ensures DwordByte(DwordOf(b), i) == b[i]
  {
    if i == 0 {} else if i == 1 {} else if i == 2 {} else if i == 3 {} else if i == 4 {} else if i == 5 {} else if i == 6 {} else {}
  }

  lemma DwordSame(x: bv64, y: bv64)
    requires forall i :: 0 <= i < 8 ==> DwordByte(x, i) == DwordByte(y, i)
    ensures x == y
  {
    assert DwordByte(x, 0) == DwordByte(y, 0) && DwordByte(x, 1) == DwordByte(y, 1) && DwordByte(x, 2) == DwordByte(y, 2) && DwordByte(x, 3) == DwordByte(y, 3);
    assert DwordByte(x, 4) == DwordByte(y, 4) && DwordByte(x, 5) == DwordByte(y, 5) && DwordByte(x, 6) == DwordByte(y, 6) && DwordByte(x, 7) == DwordByte(y, 7);
  }

  /** A cell is its bytes. */
  lemma DwordIsItsBytes(x: bv64, b: Bytes)
    requires |b| == 8
    ensures DwordBytes(x) == b <==> x == DwordOf(b)
  {
    hide DwordByte, DwordOf;
    forall i | 0 <= i < 8 ensures DwordByte(DwordOf(b), i) == b[i] {
      DwordOfByte(b, i);
    }
    if DwordBytes(x) == b {
      DwordSame(x, DwordOf(b));
    }
  }

  lemma DwordStepBits(x: bv64, i: nat)
    requires i < 8
    ensures (((x << 8) >> Bits(7 - i)) & 0xFF) as byte == if i < 7 then ((x >> Bits(7 - 1 - i)) & 0xFF) as byte else 0
    ensures (((x >> 8) >> Bits(7 - i)) & 0xFF) as byte == if i > 0 then ((x >> Bits(8 - i)) & 0xFF) as byte else 0
  {
    if i == 0 {} else if i == 1 {} else if i == 2 {} else if i == 3 {} else if i == 4 {} else if i == 5 {} else if i == 6 {} else {}
  }

  lemma DwordStep(x: bv64, i: nat)
    requires i < 8
    ensures DwordByte(DwordUp(x), i) == if i < 7 then DwordByte(x, i + 1) else 0
    ensures DwordByte(DwordDown(x), i) == if i > 0 then DwordByte(x, i - 1) else 0
  {
    DwordStepBits(x, i);
    hide Bits;
  }

  lemma DwordBitsUp(x: bv64, k: nat)
    requires k < 7
    ensures x << Bits(k + 1) == (x << Bits(k)) << 8
  {
    if k == 0 {} else if k == 1 {} else if k == 2 {} else if k == 3 {} else if k == 4 {} else if k == 5 {} else {}
  }

  lemma DwordComposeUp(x: bv64, k: nat)
    requires k < 7
    ensures DwordShl(x, k + 1) == DwordUp(DwordShl(x, k))
  {
    DwordBitsUp(x, k);
    hide Bits;
  }

  lemma DwordBitsDown(x: bv64, k: nat)
    requires k < 7
    ensures x >> Bits(k + 1) == (x >> Bits(k)) >> 8
  {
    if k == 0 {} else if k == 1 {} else if k == 2 {} else if k == 3 {} else if k == 4 {} else if k == 5 {} else {}
  }

  lemma DwordComposeDown(x: bv64, k: nat)
    requires k < 7
    ensures DwordShr(x, k + 1) == DwordDown(DwordShr(x, k))
  {
    DwordBitsDown(x, k);
    hide Bits;
  }

  lemma DwordShiftZero(x: bv64)
    ensures DwordShl(x, 0) == x && DwordShr(x, 0) == x
  {}

  lemma {:induction false} DwordShiftLeft(x: bv64, k: nat, i: nat)
    requires k < 8 && i < 8
    ensures DwordByte(DwordShl(x, k), i) == if i + k < 8 then DwordByte(x, i + k) else 0
    decreases k
  {
    DwordShiftZero(x);
    hide DwordByte, DwordShl, DwordShr, DwordUp, DwordDown;
    if k > 0 {
      DwordComposeUp(x, k - 1);
      DwordStep(DwordShl(x, k - 1), i);
      if i < 7 {
        DwordShiftLeft(x, k - 1, i + 1);
      }
    }
  }

  lemma {:induction false} DwordShiftRight(x: bv64, k: nat, i: nat)
    requires k < 8 && i < 8
    ensures DwordByte(DwordShr(x, k), i) == if i >= k then DwordByte(x, i - k) else 0
    decreases k
  {
    DwordShiftZero(x);
    hide DwordByte, DwordShl, DwordShr, DwordUp, DwordDown;
    if k > 0 {
      DwordComposeDown(x, k - 1);
      DwordStep(DwordShr(x, k - 1), i);
      if i > 0 {
        DwordShiftRight(x, k - 1, i - 1);
      }
    }
  }

  lemma DwordMergeBits(x: bv64, mask: bv64, y: bv64)
    ensures ((x & !mask) | y) >> 8 == ((x >> 8) & !(mask >> 8)) | (y >> 8)
    ensures (((x & !mask) | y) & 0xFF) as byte == (((x & 0xFF) as byte) & !((mask & 0xFF) as byte)) | ((y & 0xFF) as byte)
  {}

  lemma DwordMergeStep(x: bv64, mask: bv64, y: bv64)
    ensures DwordDown(DwordMerge(x, mask, y)) == DwordMerge(DwordDown(x), DwordDown(mask), DwordDown(y))
    ensures DwordLast(DwordMerge(x, mask, y)) == (DwordLast(x) & !DwordLast(mask)) | DwordLast(y)
  {
    DwordMergeBits(x, mask, y);
  }

  lemma {:induction false} DwordMergeShift(x: bv64, mask: bv64, y: bv64, k: nat)
    requires k < 8
    ensures DwordShr(DwordMerge(x, mask, y), k) == DwordMerge(DwordShr(x, k), DwordShr(mask, k), DwordShr(y, k))
  {
    if k == 0 {
      DwordShiftZero(x);
      DwordShiftZero(y);
      DwordShiftZero(mask);
      DwordShiftZero(DwordMerge(x, mask, y));
    } else {
      DwordMergeShift(x, mask, y, k - 1);
      DwordComposeDown(x, k - 1);
      DwordComposeDown(y, k - 1);
      DwordComposeDown(mask, k - 1);
      DwordComposeDown(DwordMerge(x, mask, y), k - 1);
      DwordMergeStep(DwordShr(x, k - 1), DwordShr(mask, k - 1), DwordShr(y, k - 1));
    }
    hide DwordMerge, DwordShr, DwordDown;
  }

  /** What an unaligned access does to each byte. */
  lemma DwordMergedByte(x: bv64, mask: bv64, y: bv64, i: nat)
    requires i < 8 && (DwordByte(mask, i) == 0xFF || (DwordByte(mask, i) == 0 && DwordByte(y, i) == 0))
    ensures DwordByte(DwordMerge(x, mask, y), i) == if DwordByte(mask, i) == 0 then DwordByte(x, i) else DwordByte(y, i)
  {
    DwordMergeShift(x, mask, y, 7 - i);
    DwordMergeStep(DwordShr(x, 7 - i), DwordShr(mask, 7 - i), DwordShr(y, 7 - i));
    hide DwordMerge, DwordShr, DwordLast;
    MergeByte(DwordByte(x, i), DwordByte(mask, i), DwordByte(y, i));
  }

  lemma DwordAllOnes(i: nat)
    requires i < 8
    ensures DwordByte(DWORD_ONES, i) == 0xFF
  {
    if i == 0 {} else if i == 1 {} else if i == 2 {} else if i == 3 {} else if i == 4 {} else if i == 5 {} else if i == 6 {} else {}
  }

  /** Merging under a mask shifted up by `k` bytes: the lower bytes of `y`, then the
      lowest `k` bytes of `x`. */
  lemma DwordMergeUp(x: bv64, y: bv64, k: nat)
    requires k < 8
    ensures DwordBytes(DwordMerge(x, DwordShl(DWORD_ONES, k), DwordShl(y, k))) == DwordBytes(y)[k..] + DwordBytes(x)[8 - k..]
  {
    hide DwordByte, DwordShl, DwordMerge;
    forall i | 0 <= i < 8
      ensures DwordByte(DwordMerge(x, DwordShl(DWORD_ONES, k), DwordShl(y, k)), i) == if i + k < 8 then DwordByte(y, i + k) else DwordByte(x, i)
    {
      DwordShiftLeft(DWORD_ONES, k, i);
      DwordShiftLeft(y, k, i);
      if i + k < 8 {
        DwordAllOnes(i + k);
      }
      DwordMergedByte(x, DwordShl(DWORD_ONES, k), DwordShl(y, k), i);
    }
  }

  /** Merging under a mask shifted down by `k` bytes: the uppermost `k` bytes of `x`,
      then the upper bytes of `y`. */
  lemma DwordMergeDown(x: bv64, y: bv64, k: nat)
    requires k < 8
    ensures DwordBytes(DwordMerge(x, DwordShr(DWORD_ONES, k), DwordShr(y, k))) == DwordBytes(x)[..k] + DwordBytes(y)[..8 - k]
  {
    hide DwordByte, DwordShr, DwordMerge;
    forall i | 0 <= i < 8
      ensures DwordByte(DwordMerge(x, DwordShr(DWORD_ONES, k), DwordShr(y, k)), i) == if i >= k then DwordByte(y, i - k) else DwordByte(x, i)
    {
      DwordShiftRight(DWORD_ONES, k, i);
      DwordShiftRight(y, k, i);
      if i >= k {
        DwordAllOnes(i - k);
      }
      DwordMergedByte(x, DwordShr(DWORD_ONES, k), DwordShr(y, k), i);
    }
  }
}
