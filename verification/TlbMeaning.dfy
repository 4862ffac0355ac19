/** What a program gets from TLBWI, in numbers: which addresses the entry matches, which
    half answers, and the physical address, the faults and the cacheability it gives. */
module TlbMeaning {
  import opened TlbSpec
  import opened TlbAborts
  import opened PageBits

  /** The PageMask field of each page size. */
  function MaskField(size: PageSize): bv12 {
    match size
    case K4 => 0x000
    case K16 => 0x003
    case K64 => 0x00F
    case K256 => 0x03F
    case M1 => 0x0FF
    case M4 => 0x3FF
    case M16 => 0xFFF
  }

  /** Two addresses in the same pair of pages of the same region. */
  predicate SamePair(v: bv64, w: bv64, size: PageSize) {
    PairNumber(Page40(v), size) == PairNumber(Page40(w), size)
  }

  lemma MasksAre(size: PageSize)
    ensures NormalizePageMask(MaskField(size)) == MaskField(size)
    ensures PageMaskRaw(MaskField(size)) | 0x1FFF == PairBits(size)
    ensures OffsetMask(MaskField(size)) as bv64 == OffsetBits(size)
    ensures (OffsetMask(MaskField(size)) + 1) as bv64 == SizeBit(size)
  {}

  lemma ComparedAs(v: bv64, mask: bv12)
    ensures GetVpn(v, mask) == Masked(Page40(v), !(PageMaskRaw(mask) | 0x1FFF))
  {
    hide PageMaskRaw, Page40;
    RegionAndPage(v);
  }

  /** The address comparison of an entry, for each page size. */
  lemma VpnIsPair(v: bv64, hi: bv64, size: PageSize)
    ensures GetVpn(hi, MaskField(size)) == GetVpn(v, MaskField(size)) <==> SamePair(v, hi, size)
  {
    hide GetVpn, Masked, Page40, PairNumber, PairBits, PageMaskRaw, OffsetMask, MaskField, NormalizePageMask, SizeBit, OffsetBits;
    MasksAre(size);
    ComparedAs(v, MaskField(size));
    ComparedAs(hi, MaskField(size));
    SamePairIff(Page40(v), Page40(hi), size);
  }

  // ----- Halves, offsets, fields -----

  /** The half chosen by the mask is the half of the page's parity. */
  lemma SelectedBy(e: TlbEntry, v: bv64, m: bv64)
    requires m == (OffsetMask(e.pageMask) + 1) as bv64
    ensures Masked(v, m) == 0 ==> HalfOf(e, v) == e.entryLo0
    ensures Masked(v, m) != 0 ==> HalfOf(e, v) == e.entryLo1
  {
    hide OffsetMask;
  }

  /** Even pages are answered by EntryLo0, odd pages by EntryLo1. */
  lemma HalfIs(e: TlbEntry, v: bv64, size: PageSize)
    requires e.pageMask == MaskField(size)
    ensures HalfOf(e, v) == if EvenPage(v, size) then e.entryLo0 else e.entryLo1
  {
    hide OffsetMask, HalfOf, Masked, EvenPage, MaskField, SizeBit, OffsetBits, PairBits, PageMaskRaw, NormalizePageMask;
    MasksAre(size);
    SelectedBy(e, v, SizeBit(size));
    ParityIs(v, size);
  }

  lemma WithinBits(v: bv64, m: bv32)
    ensures ((v & (m as bv64)) as bv32) as bv64 == v & (m as bv64)
  {}

  lemma WithinIs(mask: bv12, v: bv64)
    ensures Within(mask, v) as bv64 == Masked(v, OffsetMask(mask) as bv64)
  {
    hide OffsetMask;
    WithinBits(v, OffsetMask(mask));
  }

  lemma OffsetIs(v: bv64, size: PageSize)
    ensures Within(MaskField(size), v) as bv64 == InPage(v, size)
  {
    hide OffsetMask, Within, Masked, InPage, MaskField, SizeBit, OffsetBits, PairBits, PageMaskRaw, NormalizePageMask;
    MasksAre(size);
    WithinIs(MaskField(size), v);
    RemainderIs(v, size);
  }

  /** Bits 1 and 2 of EntryLo, and whether the field of bits 3 to 5 is 2. */
  predicate VBit(lo: bv32) { lo / 2 % 2 == 1 }

  predicate DBit(lo: bv32) { lo / 4 % 2 == 1 }

  predicate Uncached(lo: bv32) { lo / 8 % 8 == 2 }

  lemma StoredBits(lo: bv32)
    ensures LoValid(StoredLo(lo)) <==> VBit(lo)
    ensures LoDirty(StoredLo(lo)) <==> DBit(lo)
    ensures LoCached(StoredLo(lo)) <==> !Uncached(lo)
  {}

  function Wide(x: bv32): bv64 { x as bv64 }

  /** The page frame number, bits 6 to 25 of EntryLo, times 4096. */
  function FrameAddress(lo: bv32): bv32 { lo / 64 % 0x10_0000 * 0x1000 }

  lemma StoredFrame(lo: bv32)
    ensures Frame(StoredLo(lo)) == FrameAddress(lo)
  {}

  lemma JoinBits(f: bv32, o: bv32)
    ensures Join(f, o) as bv64 == (f as bv64) | (o as bv64)
  {}

  lemma OrBits(f: bv64, o: bv64)
    ensures f | o == Or(f, o)
  {}

  /** A frame is a multiple of 4096. */
  lemma FrameIsAligned(lo: bv32)
    ensures InPage(Wide(FrameAddress(lo)), K4) == 0
  {}

  /** The physical address is frame plus offset exactly if they share no bit: always for
      4096-byte pages, and for larger ones in a frame that is a multiple of the page
      size. */
  lemma LocatedIsSum(lo: bv32, v: bv64, size: PageSize)
    ensures
      var f, o := Wide(FrameAddress(lo)), InPage(v, size);
      && (Or(f, o) == Sum(f, o) <==> Masked(f, o) == 0)
      && (InPage(f, size) == 0 || size == K4 ==> Or(f, o) == Sum(f, o))
  {
    hide *;
    OrIsSumIff(Wide(FrameAddress(lo)), v, size);
    FrameIsAligned(lo);
  }

  lemma CombineIs(lo: bv32, size: PageSize, v: bv64)
    ensures Wide(Combine(StoredLo(lo), MaskField(size), v)) == Or(Wide(FrameAddress(lo)), InPage(v, size))
  {
    hide Frame, FrameAddress, Within, InPage, StoredLo, Join, Or, MaskField;
    StoredFrame(lo);
    OffsetIs(v, size);
    JoinBits(FrameAddress(lo), Within(MaskField(size), v));
    OrBits(Wide(FrameAddress(lo)), Within(MaskField(size), v) as bv64);
  }

  // ----- What the walk answers -----

  /** Bits 0 to 7 of EntryHi. */
  function AsidField(hi: bv64): bv8 { (hi % 0x100) as bv8 }

  lemma AsidIs(hi: bv64)
    ensures AsidOf(hi) == AsidField(hi)
  {}

  lemma GlobalIs(lo: bv32)
    ensures GlobalBit(lo) <==> lo % 2 == 1
  {}

  /** Which addresses the written entry matches: those of its pair of pages, under its
      ASID, or under any if both G bits are set. */
  lemma WrittenMatches(s: Cp0State, asid: bv8, v: bv64, size: PageSize)
    requires NormalizePageMask(s.pageMask) == MaskField(size)
    ensures Matches(WrittenEntry(s), asid, v) <==>
      SamePair(v, s.entryHi, size) &&
      (asid == AsidField(s.entryHi) || (s.entryLo0 % 2 == 1 && s.entryLo1 % 2 == 1))
  {
    hide NormalizePageMask, GetVpn, AsidOf, AsidField, StoredHi, StoredLo, GlobalBit, SamePair, OffsetMask, PageMaskRaw,
      MaskField, SizeBit, OffsetBits, PairBits;
    MasksAre(size);
    StoredVpn(s.entryHi, MaskField(size));
    StoredAsid(s.entryHi, MaskField(size));
    AsidIs(s.entryHi);
    GlobalIs(s.entryLo0);
    GlobalIs(s.entryLo1);
    VpnIsPair(v, s.entryHi, size);
  }

  /** A walk misses exactly when no entry matches. */
  lemma MissesIff(tlb: seq<TlbEntry>, asid: bv8, v: bv64, access: Access)
    ensures ProbeSlow(tlb, asid, v, access) == Fault(Miss) <==>
      forall k :: 0 <= k < |tlb| ==> !Matches(tlb[k], asid, v)
  {
    hide Matches, HalfOf, Combine, LoValid, LoDirty, LoCached;
  }

  lemma FindsWritten(s: Cp0State, index: nat, v: bv64, size: PageSize)
    requires s.Valid() && index < ENTRIES && NormalizePageMask(s.pageMask) == MaskField(size) && SamePair(v, s.entryHi, size)
    requires forall k :: 0 <= k < index ==> !Matches(s.tlb[k], s.Asid(), v)
    ensures Tlbwi(s, index).tlb[index] == WrittenEntry(s)
    ensures Find(Tlbwi(s, index).tlb, s.Asid(), v) == Some(index)
  {
    hide AsidField, AsidOf, SamePair, Matches, WrittenEntry, ClearRange, MaskField;
    WrittenMatches(s, s.Asid(), v, size);
    AsidIs(s.entryHi);
    var t := Tlbwi(s, index).tlb;
    assert forall k :: 0 <= k < index ==> t[k] == s.tlb[k];
  }

  /** The answer of one EntryLo register. */
  predicate Answers(w: Walk, lo: bv32, index: nat, access: Access, offset: bv64) {
    && w != Fault(Miss)
    && (w == Fault(Invalid) <==> !VBit(lo))
    && (w == Fault(Modification) <==> VBit(lo) && access == Store && !DBit(lo))
    && (w.Hit? ==>
         && w.entry == index
         && Wide(w.paddr) == Or(Wide(FrameAddress(lo)), offset)
         && (w.cached <==> !Uncached(lo))
         && (w.dirty <==> DBit(lo)))
  }

  /** What a stored half answers, by its own fields. */
  predicate AnswersStored(w: Walk, half: bv32, index: nat, access: Access, paddr: bv32) {
    && w != Fault(Miss)
    && (w == Fault(Invalid) <==> !LoValid(half))
    && (w == Fault(Modification) <==> LoValid(half) && access == Store && !LoDirty(half))
    && (w.Hit? ==>
         w.entry == index && w.paddr == paddr && (w.cached <==> LoCached(half)) && (w.dirty <==> LoDirty(half)))
  }

  lemma TranslateAnswers(e: TlbEntry, index: nat, v: bv64, access: Access)
    ensures AnswersStored(Translate(e, index, v, access), HalfOf(e, v), index, access,
                          Combine(HalfOf(e, v), e.pageMask, v))
  {
    hide HalfOf, Combine, LoValid, LoDirty, LoCached;
  }

  lemma StoredAnswers(e: TlbEntry, lo: bv32, index: nat, v: bv64, access: Access, size: PageSize)
    requires e.pageMask == MaskField(size) && HalfOf(e, v) == StoredLo(lo)
    ensures Answers(Translate(e, index, v, access), lo, index, access, InPage(v, size))
  {
    hide HalfOf, Combine, LoValid, LoDirty, LoCached, InPage, FrameAddress, Or, VBit, DBit, Uncached, StoredLo, MaskField,
      Translate, Wide;
    TranslateAnswers(e, index, v, access);
    StoredBits(lo);
    CombineIs(lo, size, v);
  }

  /** After TLBWI, an access in the entry's pair of pages that no lower entry matches is
      answered by EntryLo0 in the even page and by EntryLo1 in the odd page: it faults as
      invalid exactly when V is clear, as a modification exactly for a store with V set
      and D clear; else it gives the page frame joined with the offset in the page,
      cached unless C is 2. */
  lemma WrittenPageAnswers(s: Cp0State, index: nat, v: bv64, access: Access, size: PageSize)
    requires s.Valid() && index < ENTRIES && NormalizePageMask(s.pageMask) == MaskField(size) && SamePair(v, s.entryHi, size)
    requires forall k :: 0 <= k < index ==> !Matches(s.tlb[k], s.Asid(), v)
    ensures
      var lo := if EvenPage(v, size) then s.entryLo0 else s.entryLo1;
      Answers(ProbeSlow(Tlbwi(s, index).tlb, s.Asid(), v, access), lo, index, access, InPage(v, size))
  {
    hide HalfOf, EvenPage, InPage, Answers, StoredLo, StoredHi, Tlbwi, Translate, AsidOf, SamePair, Matches, MaskField,
      NormalizePageMask, PageMaskRaw, OffsetMask, SizeBit, OffsetBits, PairBits;
    MasksAre(size);
    FindsWritten(s, index, v, size);
    var e := WrittenEntry(s);
    HalfIs(e, v, size);
    var lo := if EvenPage(v, size) then s.entryLo0 else s.entryLo1;
    StoredAnswers(e, lo, index, v, access, size);
  }

  /** Each pair of page mask bits is stored as its upper bit twice. */
  lemma PairsNormalized(mask: bv12)
    ensures NormalizePageMask(mask) & 0xAAA == mask & 0xAAA
    ensures NormalizePageMask(mask) & 0x555 == (mask & 0xAAA) >> 1
  {}

  /** TLBP reports failure exactly when no entry matches EntryHi. */
  lemma TlbpFailsIff(s: Cp0State)
    requires s.Valid()
    ensures Tlbp(s) == 0x8000_0000 <==> forall k :: 0 <= k < ENTRIES ==> !Matches(s.tlb[k], s.Asid(), s.entryHi)
  {
    hide Matches;
  }
}
