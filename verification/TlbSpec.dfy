/** The 32-entry joint TLB of the VR4300 as a value, the linear walk that defines
    address translation, and the 4-way software cache placed in front of it.

    Every register keeps its hardware width: addresses and EntryHi are 64-bit
    vectors, EntryLo is a 32-bit vector, and PageMask is its 12-bit field
    (the register is always written through a mask that clears the other bits). */
module TlbSpec {

  datatype Option<+T> = None | Some(value: T)

  datatype Access = Load | Store

  datatype TlbError = Miss | Invalid | Modification

  datatype TlbEntry = TlbEntry(
    initialized: bool,
    entryLo0: bv32,
    entryLo1: bv32,
    entryHi: bv64,
    pageMask: bv12,
    global: bool)

  /** What the walk reports. `dirty` is the writable bit of the chosen half. */
  datatype Walk = Fault(error: TlbError) | Hit(paddr: bv32, cached: bool, entry: nat, dirty: bool)

  const ENTRIES: nat := 32
  const WAYS: nat := 4
  const SETS: nat := 0x8000

  // ----- Fields -----

  function LoValid(lo: bv32): bool { lo & 2 != 0 }

  function LoDirty(lo: bv32): bool { lo & 4 != 0 }

  function LoCached(lo: bv32): bool { (lo >> 3) & 7 != 2 }

  function LoPfn(lo: bv32): bv32 { (lo >> 6) & 0xFFFFF }

  function AsidOf(entryHi: bv64): bv8 { (entryHi & 0xFF) as bv8 }

  function PageMaskRaw(mask: bv12): bv64 { (mask as bv64) << 13 }

  // ----- Numbers from bit vectors -----

  /** The number a 15-bit vector stands for. */
  function ToNat(x: bv15): (n: nat)
    decreases x
  {
    if x == 0 then 0 else 2 * ToNat(x >> 1) + (if x & 1 == 1 then 1 else 0)
  }

  predicate Subset(x: bv15, y: bv15) { x & y == x }

  /** Setting more bits never makes the number smaller. */
  lemma {:induction false} ToNatSubset(x: bv15, y: bv15)
    requires Subset(x, y)
    ensures ToNat(x) <= ToNat(y)
    decreases y
  {
    if y != 0 {
      ToNatSubset(x >> 1, y >> 1);
    }
  }

  lemma ToNatHalves(x: bv15)
    ensures ToNat(x) == 2 * ToNat(x >> 1) + (if x & 1 == 1 then 1 else 0)
  {}

  lemma {:induction false} ToNatPositive(x: bv15)
    ensures x != 0 ==> ToNat(x) > 0
    decreases x
  {
    if x != 0 {
      ToNatPositive(x >> 1);
    }
  }

  lemma SameHalves(x: bv15, y: bv15)
    requires x >> 1 == y >> 1 && (x & 1 == 1 <==> y & 1 == 1)
    ensures x == y
  {}

  lemma EqualHalves(x: bv15, y: bv15)
    requires ToNat(x) == ToNat(y)
    ensures ToNat(x >> 1) == ToNat(y >> 1)
    ensures x >> 1 == y >> 1 ==> x == y
  {
    ToNatHalves(x);
    ToNatHalves(y);
    if x >> 1 == y >> 1 {
      SameHalves(x, y);
    }
  }

  lemma {:induction false} ToNatInjective(x: bv15, y: bv15)
    requires ToNat(x) == ToNat(y)
    ensures x == y
    decreases ToNat(x)
  {
    if x == 0 {
      ToNatPositive(y);
    } else {
      ToNatHalves(x);
      ToNatPositive(x);
      EqualHalves(x, y);
      ToNatInjective(x >> 1, y >> 1);
    }
  }

  lemma ToNatBound(x: bv15)
    ensures ToNat(x) < SETS
  {
    ToNatSubset(x, 0x7FFF);
    assert ToNat(0x7) == 7;
    assert ToNat(0x3F) == 0x3F;
    assert ToNat(0x1FF) == 0x1FF;
    assert ToNat(0xFFF) == 0xFFF;
    assert ToNat(0x7FFF) == 0x7FFF;
  }

  // ----- The walk -----

  function GetVpn(address: bv64, mask: bv12): bv64 {
    var pageMask := PageMaskRaw(mask) | 0x1FFF;
    var vpn := (address & 0xFF_FFFF_FFFF) | ((address >> 22) & 0x300_0000_0000);
    vpn & !pageMask
  }

  predicate VpnMatch(e: TlbEntry, vaddr: bv64) {
    e.initialized && GetVpn(e.entryHi, e.pageMask) == GetVpn(vaddr, e.pageMask)
  }

  predicate Matches(e: TlbEntry, asid: bv8, vaddr: bv64) {
    VpnMatch(e, vaddr) && (e.global || asid == AsidOf(e.entryHi))
  }

  /** The first matching entry at or after index `i`. */
  function FindFrom(tlb: seq<TlbEntry>, asid: bv8, vaddr: bv64, i: nat): (r: Option<nat>)
    requires i <= |tlb|
    ensures r.Some? ==> i <= r.value < |tlb| && Matches(tlb[r.value], asid, vaddr)
    ensures r.Some? ==> forall k :: i <= k < r.value ==> !Matches(tlb[k], asid, vaddr)
    ensures r.None? ==> forall k :: i <= k < |tlb| ==> !Matches(tlb[k], asid, vaddr)
    decreases |tlb| - i
  {
    if i == |tlb| then None
    else if Matches(tlb[i], asid, vaddr) then Some(i)
    else FindFrom(tlb, asid, vaddr, i + 1)
  }

  function Find(tlb: seq<TlbEntry>, asid: bv8, vaddr: bv64): (r: Option<nat>)
    ensures r.Some? ==> r.value < |tlb|
  {
    FindFrom(tlb, asid, vaddr, 0)
  }

  /** The offset mask of a page; `+ 1` selects the even or odd half. */
  function OffsetMask(mask: bv12): bv32 { ((mask as bv32) << 12) | 0xFFF }

  function HalfOf(e: TlbEntry, vaddr: bv64): bv32 {
    if vaddr & ((OffsetMask(e.pageMask) + 1) as bv64) == 0 then e.entryLo0 else e.entryLo1
  }

  function Frame(lo: bv32): bv32 { LoPfn(lo) << 12 }

  function Within(mask: bv12, vaddr: bv64): bv32 { (vaddr & (OffsetMask(mask) as bv64)) as bv32 }

  function Join(frame: bv32, offset: bv32): bv32 { frame | offset }

  /** The page frame in `lo`, with the address bits below the page size. */
  function Combine(lo: bv32, mask: bv12, vaddr: bv64): bv32 { Join(Frame(lo), Within(mask, vaddr)) }

  function Translate(e: TlbEntry, n: nat, vaddr: bv64, access: Access): Walk {
    var lo := HalfOf(e, vaddr);
    if !LoValid(lo) then Fault(Invalid)
    else if access == Store && !LoDirty(lo) then Fault(Modification)
    else Hit(Combine(lo, e.pageMask, vaddr), LoCached(lo), n, LoDirty(lo))
  }

  function ProbeSlow(tlb: seq<TlbEntry>, asid: bv8, vaddr: bv64, access: Access): Walk {
    match Find(tlb, asid, vaddr)
    case None => Fault(Miss)
    case Some(n) => Translate(tlb[n], n, vaddr, access)
  }

  // ----- The software cache -----

  datatype CacheLine = CacheLine(
    valid: bool,
    hit: bool,
    entryNum: nat,
    cached: bool,
    tag: bv64,
    baseAddress: bv32,
    asid: bv8,
    global: bool,
    dirty: bool)

  const EMPTY_LINE := CacheLine(false, false, 0, false, 0, 0, 0, false, false)

  type CacheSet = s: seq<CacheLine> | |s| == WAYS witness [EMPTY_LINE, EMPTY_LINE, EMPTY_LINE, EMPTY_LINE]

  const EMPTY_SET: CacheSet := [EMPTY_LINE, EMPTY_LINE, EMPTY_LINE, EMPTY_LINE]

  function IndexBits(vaddr: bv64): bv15 { ((vaddr >> 12) & 0x7FFF) as bv15 }

  function CacheIndex(vaddr: bv64): (i: nat)
    ensures i < SETS
  {
    ToNatBound(IndexBits(vaddr));
    ToNat(IndexBits(vaddr))
  }

  function CacheTag(vaddr: bv64): bv64 { (vaddr >> 27) & 0x1F_FFFF_FFFF }

  function BaseAddress(vaddr: bv64): bv64 { vaddr & !0xFFF }

  function AddOffset(base: bv32, vaddr: bv64): bv32 { base + ((vaddr & 0xFFF) as bv32) }

  /** What a probe hands back to its caller. */
  datatype Translation = Faulted(error: TlbError) | Resolved(paddr: bv32, cached: bool, entry: nat)

  /** Either an answer, or the "missed when it should have hit" abort. */
  datatype Outcome = Answer(t: Translation) | Abort

  /** The caller's view of a walk. */
  function View(w: Walk): Translation {
    match w
    case Fault(e) => Faulted(e)
    case Hit(p, c, n, _) => Resolved(p, c, n)
  }

  function FromCacheLine(tlb: seq<TlbEntry>, asid: bv8, line: CacheLine, vaddr: bv64, access: Access): Outcome {
    if !line.hit || (access == Store && !line.dirty) then
      match ProbeSlow(tlb, asid, vaddr, access)
      case Hit(_, _, _, _) => Abort
      case Fault(e) => Answer(Faulted(e))
    else
      Answer(Resolved(AddOffset(line.baseAddress, vaddr), line.cached, line.entryNum))
  }

  predicate LineMatches(line: CacheLine, tag: bv64, asid: bv8) {
    line.valid && line.tag == tag && (line.global || line.asid == asid)
  }

  /** The first way at or after `i` that answers for `tag` under `asid`. */
  function LookupFrom(ways: CacheSet, tag: bv64, asid: bv8, i: nat): (r: Option<nat>)
    requires i <= WAYS
    ensures r.Some? ==> i <= r.value < WAYS && LineMatches(ways[r.value], tag, asid)
    ensures r.Some? ==> forall k :: i <= k < r.value ==> !LineMatches(ways[k], tag, asid)
    ensures r.None? ==> forall k :: i <= k < WAYS ==> !LineMatches(ways[k], tag, asid)
    decreases WAYS - i
  {
    if i == WAYS then None
    else if LineMatches(ways[i], tag, asid) then Some(i)
    else LookupFrom(ways, tag, asid, i + 1)
  }

  /** The way a new line goes to: the first free one, or the random victim. */
  function DestFrom(ways: CacheSet, victim: nat, i: nat): (r: nat)
    requires i <= WAYS && victim < WAYS
    ensures r < WAYS
    decreases WAYS - i
  {
    if i == WAYS then victim
    else if !ways[i].valid then i
    else DestFrom(ways, victim, i + 1)
  }

  /** The line recorded after a walk at `vaddr`. `junk` is the uninitialised
      physical address left over when the walk fails, `cachedIn` the caller's
      cacheability flag, which only a successful walk overwrites. */
  function NewLine(tlb: seq<TlbEntry>, asid: bv8, vaddr: bv64, access: Access, cachedIn: bool, junk: bv32): CacheLine {
    LineOf(tlb, ProbeSlow(tlb, asid, BaseAddress(vaddr), access), CacheTag(vaddr), asid, cachedIn, junk)
  }

  function LineOf(tlb: seq<TlbEntry>, walk: Walk, tag: bv64, asid: bv8, cachedIn: bool, junk: bv32): CacheLine {
    match walk
    case Fault(_) => CacheLine(true, false, 0, cachedIn, tag, junk, asid, true, false)
    case Hit(p, c, n, d) => CacheLine(true, true, n, c, tag, p, asid, n < |tlb| && tlb[n].global, d)
  }

  // ----- CP0 state and operations -----

  type Cache = s: seq<CacheSet> | |s| == SETS witness seq(SETS, _ => EMPTY_SET)

  datatype Cp0State = Cp0State(
    tlb: seq<TlbEntry>,
    cache: Cache,
    entryHi: bv64,
    entryLo0: bv32,
    entryLo1: bv32,
    pageMask: bv12)
  {
    predicate Valid() { |tlb| == ENTRIES }

    function Asid(): bv8 { AsidOf(entryHi) }
  }

  function Probe(s: Cp0State, vaddr: bv64, access: Access, victim: nat, cachedIn: bool, junk: bv32)
    : (r: (Cp0State, Outcome))
    requires s.Valid() && victim < WAYS
    ensures r.0.Valid() && r.0.tlb == s.tlb && r.0.entryHi == s.entryHi
  {
    var x := CacheIndex(vaddr);
    var ways := s.cache[x];
    match LookupFrom(ways, CacheTag(vaddr), s.Asid(), 0)
    case Some(i) => (s, FromCacheLine(s.tlb, s.Asid(), ways[i], vaddr, access))
    case None =>
      var line := NewLine(s.tlb, s.Asid(), vaddr, access, cachedIn, junk);
      var ways' := ways[DestFrom(ways, victim, 0) := line];
      (s.(cache := s.cache[x := ways']), FromCacheLine(s.tlb, s.Asid(), line, vaddr, access))
  }

  /** First and last cache set an entry's two pages can occupy. */
  function FirstBits(e: TlbEntry): bv15 {
    IndexBits(e.entryHi & !(PageMaskRaw(e.pageMask) | 0x1FFF))
  }

  function LastBits(e: TlbEntry): bv15 {
    var m := PageMaskRaw(e.pageMask) | 0x1FFF;
    IndexBits((e.entryHi & !m) | m)
  }

  predicate Covers(e: TlbEntry, x: nat) {
    e.initialized && ToNat(FirstBits(e)) <= x <= ToNat(LastBits(e))
  }

  function ClearRange(cache: Cache, e: TlbEntry): (r: Cache)
    ensures forall x :: 0 <= x < SETS ==> r[x] == (if Covers(e, x) then EMPTY_SET else cache[x])
  {
    seq(SETS, x requires 0 <= x < SETS => if Covers(e, x) then EMPTY_SET else cache[x])
  }

  /** 01 becomes 00 and 10 becomes 11 in each of the six bit pairs. */
  function NormalizePageMask(mask: bv12): bv12 {
    var top := mask & 0xAAA;
    top | (top >> 1)
  }

  const ENTRY_LO_WRITE_MASK: bv32 := 0x3FFFFFFF

  // What TLBWI keeps of the registers, and what TLBR hands back.

  function StoredHi(entryHi: bv64, mask: bv12): bv64 { entryHi & !PageMaskRaw(mask) }

  function StoredLo(entryLo: bv32): bv32 { entryLo & 0x03FFFFFE }

  function GlobalBit(entryLo: bv32): bool { entryLo & 1 != 0 }

  function ReadLo(stored: bv32, global: bool): bv32 {
    var cleared := stored & ENTRY_LO_WRITE_MASK & !1;
    if global then cleared | 1 else cleared
  }

  function WrittenEntry(s: Cp0State): TlbEntry {
    var mask := NormalizePageMask(s.pageMask);
    TlbEntry(true, StoredLo(s.entryLo0), StoredLo(s.entryLo1), StoredHi(s.entryHi, mask), mask,
             GlobalBit(s.entryLo0) && GlobalBit(s.entryLo1))
  }

  function Tlbwi(s: Cp0State, index: nat): (r: Cp0State)
    requires s.Valid() && index < ENTRIES
    ensures r.Valid()
  {
    var e := WrittenEntry(s);
    s.(tlb := s.tlb[index := e],
       cache := ClearRange(ClearRange(s.cache, s.tlb[index]), e))
  }

  function Tlbr(s: Cp0State, index: nat): Cp0State
    requires index < |s.tlb|
  {
    var e := s.tlb[index];
    s.(entryHi := e.entryHi,
       entryLo0 := ReadLo(e.entryLo0, e.global),
       entryLo1 := ReadLo(e.entryLo1, e.global),
       pageMask := e.pageMask)
  }

  /** The Index register after TLBP: the matching entry, or the probe-failure bit. */
  function Tlbp(s: Cp0State): (index: nat)
    requires |s.tlb| == ENTRIES
  {
    match Find(s.tlb, s.Asid(), s.entryHi)
    case Some(n) => n
    case None => 0x80000000
  }
}
