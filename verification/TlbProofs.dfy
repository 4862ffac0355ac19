/** The software cache in front of the TLB never disagrees with the 32-entry walk. */
module TlbProofs {
  import opened TlbSpec

  // ----- What a page determines -----

  predicate SamePage(v: bv64, w: bv64) { v >> 12 == w >> 12 }

  lemma SameVpn(v: bv64, w: bv64, mask: bv12)
    requires SamePage(v, w)
    ensures GetVpn(v, mask) == GetVpn(w, mask)
  {}

  lemma SameHalf(e: TlbEntry, v: bv64, w: bv64)
    requires SamePage(v, w)
    ensures HalfOf(e, v) == HalfOf(e, w)
  {
    var m := e.pageMask;
    assert v & ((OffsetMask(m) + 1) as bv64) == w & ((OffsetMask(m) + 1) as bv64);
  }

  lemma PageFromKey(v: bv64, w: bv64)
    requires CacheIndex(v) == CacheIndex(w) && CacheTag(v) == CacheTag(w)
    ensures SamePage(v, w)
  {
    ToNatInjective(IndexBits(v), IndexBits(w));
    KeyBits(v, w);
  }

  lemma KeyBits(v: bv64, w: bv64)
    requires IndexBits(v) == IndexBits(w) && CacheTag(v) == CacheTag(w)
    ensures SamePage(v, w)
  {
    assert (v >> 12) & 0x7FFF == (w >> 12) & 0x7FFF;
  }

  lemma BaseIsSamePage(v: bv64)
    ensures SamePage(v, BaseAddress(v))
  {}

  lemma SamePageSameBase(v: bv64, w: bv64)
    requires SamePage(v, w)
    ensures BaseAddress(v) == BaseAddress(w)
  {}

  lemma SamePageSameIndex(v: bv64, w: bv64)
    requires SamePage(v, w)
    ensures CacheIndex(v) == CacheIndex(w)
  {
    assert (v >> 12) & 0x7FFF == (w >> 12) & 0x7FFF;
  }

  lemma {:induction false} SameFind(tlb: seq<TlbEntry>, asid: bv8, v: bv64, w: bv64, i: nat)
    requires SamePage(v, w) && i <= |tlb|
    ensures FindFrom(tlb, asid, v, i) == FindFrom(tlb, asid, w, i)
    decreases |tlb| - i
  {
    if i < |tlb| {
      SameVpn(v, w, tlb[i].pageMask);
      SameFind(tlb, asid, v, w, i + 1);
    }
  }

  lemma CombineOffset(lo: bv32, mask: bv12, v: bv64)
    ensures Combine(lo, mask, v) == AddOffset(Combine(lo, mask, BaseAddress(v)), v)
  {
    hide Frame, Within, Join, AddOffset, BaseAddress, Aligned;
    FrameBits(lo);
    JoinOffset(Frame(lo), mask, v);
  }

  predicate Aligned(frame: bv32) { frame & 0xFFF == 0 }

  lemma FrameBits(lo: bv32)
    ensures Aligned(Frame(lo))
  {}

  lemma JoinOffset(frame: bv32, mask: bv12, v: bv64)
    requires Aligned(frame)
    ensures Join(frame, Within(mask, v)) == AddOffset(Join(frame, Within(mask, BaseAddress(v))), v)
  {}

  lemma MatchIndexBits(e: TlbEntry, v: bv64)
    requires VpnMatch(e, v)
    ensures Subset(FirstBits(e), IndexBits(v)) && Subset(IndexBits(v), LastBits(e))
  {}

  /** Invalidation reaches every set in which a page of the entry can be cached. */
  lemma MatchIsCovered(e: TlbEntry, v: bv64)
    requires VpnMatch(e, v)
    ensures Covers(e, CacheIndex(v))
  {
    hide GetVpn, IndexBits, ToNat, FirstBits, LastBits, Subset;
    MatchIndexBits(e, v);
    ToNatSubset(FirstBits(e), IndexBits(v));
    ToNatSubset(IndexBits(v), LastBits(e));
  }

  // ----- Walks -----

  /** A walk inside a page is the walk at its start, plus the offset. */
  lemma WalkAtOffset(tlb: seq<TlbEntry>, asid: bv8, v: bv64, access: Access)
    ensures ProbeSlow(tlb, asid, v, access) ==
      match ProbeSlow(tlb, asid, BaseAddress(v), access)
      case Fault(e) => Fault(e)
      case Hit(p, c, n, d) => Hit(AddOffset(p, v), c, n, d)
  {
    hide GetVpn, AsidOf, BaseAddress, SamePage, HalfOf, Combine, AddOffset, LoValid, LoDirty, LoCached;
    var b := BaseAddress(v);
    BaseIsSamePage(v);
    SameFind(tlb, asid, v, b, 0);
    match Find(tlb, asid, v)
    case None =>
    case Some(n) =>
      var e := tlb[n];
      SameHalf(e, v, b);
      CombineOffset(HalfOf(e, v), e.pageMask, v);
  }

  lemma {:induction false} FindUnchanged(tlb: seq<TlbEntry>, k: nat, e: TlbEntry, asid: bv8, v: bv64, i: nat)
    requires k < |tlb| && i <= |tlb|
    requires !VpnMatch(tlb[k], v) && !VpnMatch(e, v)
    ensures FindFrom(tlb[k := e], asid, v, i) == FindFrom(tlb, asid, v, i)
    ensures FindFrom(tlb, asid, v, i) != Some(k)
    decreases |tlb| - i
  {
    if i < |tlb| {
      FindUnchanged(tlb, k, e, asid, v, i + 1);
    }
  }

  // ----- Shadowing -----

  /** Entry `i` is private to one ASID, entry `j` after it is the first global
      entry for `v`, and `j` translates `v`: the walk then answers with `j` under
      one ASID and stops at `i` under another, although `j` is global. */
  predicate ShadowedAt(tlb: seq<TlbEntry>, v: bv64, i: nat, j: nat) {
    && i < j < |tlb|
    && VpnMatch(tlb[i], v) && !tlb[i].global
    && VpnMatch(tlb[j], v) && tlb[j].global
    && (forall k :: 0 <= k < j && VpnMatch(tlb[k], v) ==> !tlb[k].global)
    && LoValid(HalfOf(tlb[j], v))
  }

  ghost predicate NoShadow(tlb: seq<TlbEntry>) {
    forall v, i, j :: !ShadowedAt(tlb, v, i, j)
  }

  /** No two initialised entries match one address under one ASID. */
  ghost predicate NoOverlap(tlb: seq<TlbEntry>) {
    forall v, asid, i, j :: 0 <= i < j < |tlb| ==> !(Matches(tlb[i], asid, v) && Matches(tlb[j], asid, v))
  }

  lemma NoOverlapImpliesNoShadow(tlb: seq<TlbEntry>)
    requires NoOverlap(tlb)
    ensures NoShadow(tlb)
  {
    forall v: bv64, i: nat, j: nat ensures !ShadowedAt(tlb, v, i, j) {
      if ShadowedAt(tlb, v, i, j) {
        var asid := AsidOf(tlb[i].entryHi);
        assert Matches(tlb[i], asid, v) && Matches(tlb[j], asid, v);
      }
    }
  }

  lemma GlobalHitUnderAllAsids(tlb: seq<TlbEntry>, a: bv8, b: bv8, v: bv64, j: nat)
    requires NoShadow(tlb)
    requires Find(tlb, a, v) == Some(j) && tlb[j].global && LoValid(HalfOf(tlb[j], v))
    ensures Find(tlb, b, v) == Some(j)
  {
    assert Matches(tlb[j], b, v);
    var i := Find(tlb, b, v).value;
    if i < j {
      assert !Matches(tlb[i], a, v) && Matches(tlb[i], b, v);
      forall k | 0 <= k < j && VpnMatch(tlb[k], v) ensures !tlb[k].global {
        assert !Matches(tlb[k], a, v);
      }
      assert ShadowedAt(tlb, v, i, j);
    }
  }

  // ----- Coherence -----

  /** A positive line that answers for the page of `v` under `asid` tells what the
      walk would. */
  predicate SoundUnder(tlb: seq<TlbEntry>, asid: bv8, v: bv64, line: CacheLine) {
    LineMatches(line, CacheTag(v), asid) && line.hit ==>
      ProbeSlow(tlb, asid, BaseAddress(v), Load) == Hit(line.baseAddress, line.cached, line.entryNum, line.dirty)
  }

  ghost predicate CoherentUnder(s: Cp0State, asid: bv8) {
    forall v: bv64, w :: 0 <= w < WAYS ==> SoundUnder(s.tlb, asid, v, s.cache[CacheIndex(v)][w])
  }

  ghost predicate Coherent(s: Cp0State) {
    forall asid: bv8 :: CoherentUnder(s, asid)
  }

  ghost predicate Cold(s: Cp0State) {
    forall x, w :: 0 <= x < SETS && 0 <= w < WAYS ==> !s.cache[x][w].valid
  }

  lemma ColdIsCoherent(s: Cp0State)
    requires Cold(s)
    ensures Coherent(s)
  {}

  /** Using a sound line answers like the walk; the only other outcome is the
      abort, and that needs a negative line and a walk that now hits. */
  lemma LineAnswers(tlb: seq<TlbEntry>, asid: bv8, line: CacheLine, v: bv64, access: Access)
    requires LineMatches(line, CacheTag(v), asid) && SoundUnder(tlb, asid, v, line)
    ensures
      var walk := ProbeSlow(tlb, asid, v, access);
      FromCacheLine(tlb, asid, line, v, access) == if !line.hit && walk.Hit? then Abort else Answer(View(walk))
  {
    hide GetVpn, AsidOf, BaseAddress, AddOffset, CacheTag, HalfOf, Combine, LoValid, LoDirty, LoCached;
    WalkAtOffset(tlb, asid, v, access);
    WalkAtOffset(tlb, asid, v, Load);
  }

  /** What a walk found through a global entry holds under every ASID. */
  lemma FoundUnderAsid(tlb: seq<TlbEntry>, asid: bv8, b: bv64, access: Access, other: bv8)
    requires ProbeSlow(tlb, asid, b, access).Hit?
    requires other == asid || (NoShadow(tlb) && tlb[Find(tlb, asid, b).value].global)
    ensures ProbeSlow(tlb, other, b, Load) == ProbeSlow(tlb, asid, b, access)
  {
    if other != asid {
      GlobalHitUnderAllAsids(tlb, asid, other, b, Find(tlb, asid, b).value);
    }
  }

  lemma KeyFixesBase(u: bv64, v: bv64)
    requires CacheIndex(u) == CacheIndex(v) && CacheTag(u) == CacheTag(v)
    ensures BaseAddress(u) == BaseAddress(v)
  {
    PageFromKey(u, v);
    SamePageSameBase(u, v);
  }

  lemma WalkHitsAnEntry(tlb: seq<TlbEntry>, asid: bv8, b: bv64, access: Access)
    requires ProbeSlow(tlb, asid, b, access).Hit?
    ensures Find(tlb, asid, b) == Some(ProbeSlow(tlb, asid, b, access).entry)
  {
    hide HalfOf, Combine, LoValid, LoDirty, LoCached;
  }

  lemma NewLineFields(tlb: seq<TlbEntry>, asid: bv8, v: bv64, access: Access, cachedIn: bool, junk: bv32)
    ensures
      var line := NewLine(tlb, asid, v, access, cachedIn, junk);
      var walk := ProbeSlow(tlb, asid, BaseAddress(v), access);
      line.hit ==>
        && walk == Hit(line.baseAddress, line.cached, line.entryNum, line.dirty)
        && Find(tlb, asid, BaseAddress(v)) == Some(line.entryNum)
        && line.global == tlb[line.entryNum].global
  {
    hide BaseAddress, CacheTag, ProbeSlow, Find;
    if ProbeSlow(tlb, asid, BaseAddress(v), access).Hit? {
      WalkHitsAnEntry(tlb, asid, BaseAddress(v), access);
    }
  }

  /** A new line is sound under the ASID it was recorded for, and without shadowing
      under every other. */
  lemma NewLineSound(tlb: seq<TlbEntry>, asid: bv8, v: bv64, access: Access, cachedIn: bool, junk: bv32, other: bv8, u: bv64)
    requires CacheIndex(u) == CacheIndex(v) && (other == asid || NoShadow(tlb))
    ensures SoundUnder(tlb, other, u, NewLine(tlb, asid, v, access, cachedIn, junk))
  {
    hide BaseAddress, CacheTag, CacheIndex, ProbeSlow, NoShadow, Find;
    var line := NewLine(tlb, asid, v, access, cachedIn, junk);
    NewLineFields(tlb, asid, v, access, cachedIn, junk);
    if LineMatches(line, CacheTag(u), other) && line.hit {
      KeyFixesBase(u, v);
      FoundUnderAsid(tlb, asid, BaseAddress(v), access, other);
    }
  }

  lemma ProbeKeepsSound(s: Cp0State, v: bv64, access: Access, victim: nat, cachedIn: bool, junk: bv32, asid: bv8)
    requires s.Valid() && CoherentUnder(s, asid) && victim < WAYS && (asid == s.Asid() || NoShadow(s.tlb))
    ensures CoherentUnder(Probe(s, v, access, victim, cachedIn, junk).0, asid)
  {
    hide NoShadow, CacheIndex, CacheTag, SoundUnder, NewLine, FromCacheLine, AsidOf;
    var s' := Probe(s, v, access, victim, cachedIn, junk).0;
    forall u: bv64, w | 0 <= w < WAYS ensures SoundUnder(s'.tlb, asid, u, s'.cache[CacheIndex(u)][w]) {
      assert SoundUnder(s.tlb, asid, u, s.cache[CacheIndex(u)][w]);
      if CacheIndex(u) == CacheIndex(v) {
        NewLineSound(s.tlb, s.Asid(), v, access, cachedIn, junk, asid, u);
      }
    }
  }

  lemma ProbeKeepsCoherence(s: Cp0State, v: bv64, access: Access, victim: nat, cachedIn: bool, junk: bv32)
    requires s.Valid() && Coherent(s) && NoShadow(s.tlb) && victim < WAYS
    ensures Coherent(Probe(s, v, access, victim, cachedIn, junk).0)
  {
    hide NoShadow, CoherentUnder, Probe;
    forall asid: bv8 ensures CoherentUnder(Probe(s, v, access, victim, cachedIn, junk).0, asid) {
      ProbeKeepsSound(s, v, access, victim, cachedIn, junk, asid);
    }
  }

  /** Lines that survive a TLB write speak about pages the write does not touch. */
  lemma SurvivorUntouched(s: Cp0State, index: nat, v: bv64, asid: bv8, access: Access)
    requires s.Valid() && index < ENTRIES
    requires !Covers(s.tlb[index], CacheIndex(v)) && !Covers(WrittenEntry(s), CacheIndex(v))
    ensures ProbeSlow(Tlbwi(s, index).tlb, asid, BaseAddress(v), access) == ProbeSlow(s.tlb, asid, BaseAddress(v), access)
  {
    var b := BaseAddress(v);
    BaseIsSamePage(v);
    SamePageSameIndex(v, b);
    if VpnMatch(s.tlb[index], b) {
      MatchIsCovered(s.tlb[index], b);
    }
    if VpnMatch(WrittenEntry(s), b) {
      MatchIsCovered(WrittenEntry(s), b);
    }
    FindUnchanged(s.tlb, index, WrittenEntry(s), asid, b, 0);
  }

  lemma TlbwiKeepsSound(s: Cp0State, index: nat, asid: bv8)
    requires s.Valid() && CoherentUnder(s, asid) && index < ENTRIES
    ensures CoherentUnder(Tlbwi(s, index), asid)
  {
    hide BaseAddress, CacheTag, CacheIndex, ProbeSlow, WrittenEntry;
    var s' := Tlbwi(s, index);
    forall v: bv64, w | 0 <= w < WAYS ensures SoundUnder(s'.tlb, asid, v, s'.cache[CacheIndex(v)][w]) {
      var x := CacheIndex(v);
      if !Covers(s.tlb[index], x) && !Covers(WrittenEntry(s), x) {
        assert SoundUnder(s.tlb, asid, v, s.cache[x][w]);
        SurvivorUntouched(s, index, v, asid, Load);
      }
    }
  }

  lemma TlbwiKeepsCoherence(s: Cp0State, index: nat)
    requires s.Valid() && Coherent(s) && index < ENTRIES
    ensures Coherent(Tlbwi(s, index))
  {
    hide CoherentUnder, Tlbwi;
    forall asid: bv8 ensures CoherentUnder(Tlbwi(s, index), asid) {
      TlbwiKeepsSound(s, index, asid);
    }
  }
}
