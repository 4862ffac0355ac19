/** The TLB part of coprocessor 0 as the emulator keeps it: two arrays updated in
    place. Each method is tied to the functions of TlbSpec. */
module TlbUnit {
  import opened TlbSpec

  class Cp0 {
    const tlb: array<TlbEntry>
    const tlbCache: array<CacheSet>
    var entryHi: bv64
    var entryLo0: bv32
    var entryLo1: bv32
    var pageMask: bv12
    var index: nat

    ghost predicate Valid()
      reads this
    {
      tlb.Length == ENTRIES && tlbCache.Length == SETS
    }

    ghost function State(): (s: Cp0State)
      requires Valid()
      reads this, tlb, tlbCache
      ensures s.Valid()
    {
      Cp0State(tlb[..], tlbCache[..], entryHi, entryLo0, entryLo1, pageMask)
    }

    constructor ()
      ensures Valid() && fresh(tlb) && fresh(tlbCache)
      ensures forall i :: 0 <= i < ENTRIES ==> !tlb[i].initialized
      ensures forall x :: 0 <= x < SETS ==> tlbCache[x] == EMPTY_SET
    {
      var blank := TlbEntry(false, 0, 0, 0, 0, false);
      tlb := new TlbEntry[ENTRIES](_ => blank);
      tlbCache := new CacheSet[SETS](_ => EMPTY_SET);
      entryHi, entryLo0, entryLo1, pageMask, index := 0, 0, 0, 0, 0;
    }

    method FindTlbEntry(vaddr: bv64) returns (r: Option<nat>)
      requires Valid()
      ensures r == Find(tlb[..], AsidOf(entryHi), vaddr)
    {
      var i := 0;
      while i < ENTRIES
        invariant 0 <= i <= ENTRIES
        invariant Find(tlb[..], AsidOf(entryHi), vaddr) == FindFrom(tlb[..], AsidOf(entryHi), vaddr, i)
      {
        hide GetVpn, AsidOf;
        var entry := tlb[i];
        if entry.initialized {
          var vpnMatch := GetVpn(entry.entryHi, entry.pageMask) == GetVpn(vaddr, entry.pageMask);
          var asidMatch := entry.global || AsidOf(entryHi) == AsidOf(entry.entryHi);
          if vpnMatch && asidMatch {
            return Some(i);
          }
        }
        i := i + 1;
      }
      return None;
    }

    method TlbProbeSlow(vaddr: bv64, access: Access) returns (w: Walk)
      requires Valid()
      ensures w == ProbeSlow(tlb[..], AsidOf(entryHi), vaddr, access)
    {
      hide HalfOf, Combine, LoValid, LoDirty, LoCached, AsidOf, Find;
      var found := FindTlbEntry(vaddr);
      match found
      case None => w := Fault(Miss);
      case Some(n) => w := Translate(tlb[n], n, vaddr, access);
    }

    method TlbProbeFromCacheEntry(line: CacheLine, vaddr: bv64, access: Access) returns (o: Outcome)
      requires Valid()
      ensures o == FromCacheLine(tlb[..], AsidOf(entryHi), line, vaddr, access)
    {
      hide AsidOf, AddOffset, ProbeSlow;
      if !line.hit || (access == Store && !line.dirty) {
        var walk := TlbProbeSlow(vaddr, access);
        o := if walk.Hit? then Abort else Answer(Faulted(walk.error));
      } else {
        o := Answer(Resolved(AddOffset(line.baseAddress, vaddr), line.cached, line.entryNum));
      }
    }

    /** The way the new line replaces: the first free one if any, else `victim`. */
    method ChooseWay(ways: CacheSet, anyInvalid: bool, victim: nat) returns (way: nat)
      requires victim < WAYS
      requires anyInvalid <==> exists k :: 0 <= k < WAYS && !ways[k].valid
      ensures way == DestFrom(ways, victim, 0)
    {
      if anyInvalid {
        way := 0;
        while ways[way].valid
          invariant 0 <= way < WAYS
          invariant exists k :: way <= k < WAYS && !ways[k].valid
          invariant DestFrom(ways, victim, 0) == DestFrom(ways, victim, way)
          decreases WAYS - way
        {
          way := way + 1;
        }
      } else {
        way := victim;
        assert forall k :: 0 <= k < WAYS ==> ways[k].valid;
        assert DestFrom(ways, victim, 2) == victim;
      }
    }

    method TlbProbe(vaddr: bv64, access: Access, victim: nat, cachedIn: bool, junk: bv32) returns (o: Outcome)
      requires Valid() && victim < WAYS
      modifies tlbCache
      ensures (State(), o) == Probe(old(State()), vaddr, access, victim, cachedIn, junk)
    {
      hide AsidOf, CacheIndex, CacheTag, BaseAddress, ProbeSlow, FromCacheLine;
      var x := CacheIndex(vaddr);
      var tag := CacheTag(vaddr);
      var asid := AsidOf(entryHi);
      var anyInvalid := false;
      var ways := tlbCache[x];
      var i := 0;
      while i < WAYS
        invariant 0 <= i <= WAYS
        invariant anyInvalid <==> exists k :: 0 <= k < i && !ways[k].valid
        invariant LookupFrom(ways, tag, asid, 0) == LookupFrom(ways, tag, asid, i)
      {
        if ways[i].valid {
          if ways[i].tag == tag && (ways[i].global || ways[i].asid == asid) {
            o := TlbProbeFromCacheEntry(ways[i], vaddr, access);
            return;
          }
        } else {
          anyInvalid := true;
        }
        i := i + 1;
      }
      var walk := TlbProbeSlow(BaseAddress(vaddr), access);
      var way := ChooseWay(ways, anyInvalid, victim);
      var line := LineOf(tlb[..], walk, tag, asid, cachedIn, junk);
      tlbCache[x] := ways[way := line];
      o := TlbProbeFromCacheEntry(line, vaddr, access);
    }

    method ClearTlbCache(entry: TlbEntry)
      requires Valid()
      modifies tlbCache
      ensures tlbCache[..] == ClearRange(old(tlbCache[..]), entry)
    {
      hide FirstBits, LastBits, ToNat;
      if entry.initialized {
        var start, end := ToNat(FirstBits(entry)), ToNat(LastBits(entry));
        ToNatBound(LastBits(entry));
        var x := start;
        while x <= end
          invariant start <= x
          invariant forall y :: 0 <= y < SETS ==>
            tlbCache[y] == if start <= y < x && y <= end then EMPTY_SET else old(tlbCache[y])
        {
          tlbCache[x] := EMPTY_SET;
          x := x + 1;
        }
      }
    }

    method DoTlbwi(i: nat)
      requires Valid() && i < ENTRIES
      modifies tlb, tlbCache
      ensures State() == Tlbwi(old(State()), i)
    {
      hide ClearRange, NormalizePageMask, StoredHi, StoredLo, GlobalBit;
      var mask := NormalizePageMask(pageMask);
      ClearTlbCache(tlb[i]);
      tlb[i] := TlbEntry(true, StoredLo(entryLo0), StoredLo(entryLo1), StoredHi(entryHi, mask), mask,
                         GlobalBit(entryLo0) && GlobalBit(entryLo1));
      ClearTlbCache(tlb[i]);
    }

    method DoTlbr(i: nat)
      requires Valid() && i < ENTRIES
      modifies this
      ensures State() == Tlbr(old(State()), i)
    {
      hide ReadLo;
      var entry := tlb[i];
      entryHi := entry.entryHi;
      entryLo0 := ReadLo(entry.entryLo0, entry.global);
      entryLo1 := ReadLo(entry.entryLo1, entry.global);
      pageMask := entry.pageMask;
    }

    method DoTlbp()
      requires Valid()
      modifies this`index
      ensures index == Tlbp(State()) && State() == old(State())
    {
      hide AsidOf, Find;
      var found := FindTlbEntry(entryHi);
      index := if found.Some? then found.value else 0x80000000;
    }
  }
}
