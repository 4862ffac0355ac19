/** When the "missed when it should have hit" abort can and cannot happen. */
module TlbAborts {
  import opened TlbSpec
  import opened TlbProofs
  import opened TlbRuns

  predicate RunNeverAborts(s: Cp0State, ops: Ops)
    requires s.Valid()
    decreases |ops|
  {
    ops != [] ==>
      && (ops[0].OpProbe? ==> OutcomeOf(s, ops[0]).Answer?)
      && RunNeverAborts(Step(s, ops[0]), ops[1..])
  }

  /** A recorded miss really is one: the page faults on a load under `asid`. */
  predicate LineMisses(tlb: seq<TlbEntry>, asid: bv8, v: bv64, line: CacheLine) {
    line.valid && !line.hit && line.tag == CacheTag(v) ==> ProbeSlow(tlb, asid, BaseAddress(v), Load).Fault?
  }

  ghost predicate NegativesMiss(s: Cp0State, asid: bv8) {
    forall v: bv64, w :: 0 <= w < WAYS ==> LineMisses(s.tlb, asid, v, s.cache[CacheIndex(v)][w])
  }

  lemma LoadFaultsIfBaseDoes(tlb: seq<TlbEntry>, asid: bv8, v: bv64, access: Access)
    requires ProbeSlow(tlb, asid, BaseAddress(v), Load).Fault?
    ensures ProbeSlow(tlb, asid, v, access).Fault?
  {
    hide HalfOf, Combine, LoValid, LoDirty, LoCached, BaseAddress, Matches;
    WalkAtOffset(tlb, asid, v, access);
    WalkAtOffset(tlb, asid, v, Load);
  }

  lemma ProbeDoesNotAbort(s: Cp0State, op: Op)
    requires s.Valid() && OpOk(op) && op.OpProbe?
    requires CoherentUnder(s, s.Asid()) && NegativesMiss(s, s.Asid())
    ensures OutcomeOf(s, op).Answer?
  {
    hide CoherentUnder, BaseAddress, CacheTag, CacheIndex, ProbeSlow, AsidOf, Probe;
    ProbeAgrees(s, op);
    if OutcomeOf(s, op).Abort? {
      var w: nat :| NegativeWay(s, op.vaddr, w);
      assert LineMisses(s.tlb, s.Asid(), op.vaddr, s.cache[CacheIndex(op.vaddr)][w]);
      LoadFaultsIfBaseDoes(s.tlb, s.Asid(), op.vaddr, op.access);
    }
  }

  /** A store that faulted for another reason than a clean page also faults as a load. */
  lemma FaultedLineMisses(tlb: seq<TlbEntry>, asid: bv8, v: bv64, access: Access, cachedIn: bool, junk: bv32, u: bv64)
    requires ProbeSlow(tlb, asid, v, access) != Fault(Modification)
    requires CacheIndex(u) == CacheIndex(v)
    ensures LineMisses(tlb, asid, u, NewLine(tlb, asid, v, access, cachedIn, junk))
  {
    hide BaseAddress, CacheTag, CacheIndex, HalfOf, Combine, LoValid, LoDirty, LoCached, Matches, AddOffset, Find;
    if CacheTag(u) == CacheTag(v) {
      KeyFixesBase(u, v);
      WalkAtOffset(tlb, asid, v, access);
    }
  }

  /** No store of the run meets a page that is valid but clean. */
  predicate AvoidsCleanStores(s: Cp0State, op: Op) {
    op.OpProbe? ==> WalkOf(s, op) != Fault(Modification)
  }

  predicate RunIsTame(s: Cp0State, ops: Ops, asid: bv8)
    requires s.Valid()
    decreases |ops|
  {
    && s.Asid() == asid
    && (ops != [] ==> AvoidsCleanStores(s, ops[0]) && RunIsTame(Step(s, ops[0]), ops[1..], asid))
  }

  lemma ProbeKeepsNegatives(s: Cp0State, op: Op)
    requires s.Valid() && OpOk(op) && op.OpProbe?
    requires NegativesMiss(s, s.Asid()) && AvoidsCleanStores(s, op)
    ensures NegativesMiss(Step(s, op), s.Asid())
  {
    hide BaseAddress, CacheTag, CacheIndex, ProbeSlow, AsidOf, NewLine, FromCacheLine, LineMisses;
    var s' := Step(s, op);
    forall u: bv64, w | 0 <= w < WAYS ensures LineMisses(s'.tlb, s.Asid(), u, s'.cache[CacheIndex(u)][w]) {
      assert LineMisses(s.tlb, s.Asid(), u, s.cache[CacheIndex(u)][w]);
      if CacheIndex(u) == CacheIndex(op.vaddr) {
        FaultedLineMisses(s.tlb, s.Asid(), op.vaddr, op.access, op.cachedIn, op.junk, u);
      }
    }
  }

  lemma TlbwiKeepsNegatives(s: Cp0State, index: nat, asid: bv8)
    requires s.Valid() && index < ENTRIES && NegativesMiss(s, asid)
    ensures NegativesMiss(Tlbwi(s, index), asid)
  {
    hide BaseAddress, CacheTag, CacheIndex, ProbeSlow, WrittenEntry;
    var s' := Tlbwi(s, index);
    forall v: bv64, w | 0 <= w < WAYS ensures LineMisses(s'.tlb, asid, v, s'.cache[CacheIndex(v)][w]) {
      var x := CacheIndex(v);
      if !Covers(s.tlb[index], x) && !Covers(WrittenEntry(s), x) {
        assert LineMisses(s.tlb, asid, v, s.cache[x][w]);
        SurvivorUntouched(s, index, v, asid, Load);
      }
    }
  }

  lemma StepKeepsNegatives(s: Cp0State, op: Op)
    requires s.Valid() && OpOk(op) && NegativesMiss(s, s.Asid()) && AvoidsCleanStores(s, op)
    ensures NegativesMiss(Step(s, op), s.Asid())
  {
    hide AsidOf, LineMisses, CacheIndex, Tlbwi;
    match op
    case OpProbe(_, _, _, _, _) => ProbeKeepsNegatives(s, op);
    case OpTlbwi(i) => TlbwiKeepsNegatives(s, i, s.Asid());
    case OpTlbr(_) =>
    case OpWriteRegs(_, _, _, _) =>
  }

  lemma {:induction false} TameKeepsAsid(s: Cp0State, ops: Ops, asid: bv8)
    requires s.Valid() && RunIsTame(s, ops, asid)
    ensures KeepsAsid(s, ops, asid)
    decreases |ops|
  {
    hide Step;
    if ops != [] {
      TameKeepsAsid(Step(s, ops[0]), ops[1..], asid);
    }
  }

  /** With the ASID fixed and no store to a valid clean page, no run of probes,
      TLB writes and register writes reaches the abort, and every probe agrees with
      the walk. */
  lemma {:induction false} TameRunsNeverAbort(s: Cp0State, ops: Ops)
    requires s.Valid() && CoherentUnder(s, s.Asid()) && NegativesMiss(s, s.Asid())
    requires RunIsTame(s, ops, s.Asid())
    ensures RunNeverAborts(s, ops) && RunAgrees(s, ops)
    decreases |ops|
  {
    hide Step, CoherentUnder, NegativesMiss, AsidOf, Probe, AvoidsCleanStores;
    TameKeepsAsid(s, ops, s.Asid());
    FixedAsidRefinesWalk(s, ops);
    if ops != [] {
      if ops[0].OpProbe? {
        ProbeDoesNotAbort(s, ops[0]);
      }
      StepKeepsSound(s, ops[0]);
      StepKeepsNegatives(s, ops[0]);
      TameRunsNeverAbort(Step(s, ops[0]), ops[1..]);
    }
  }

  lemma ColdHasNoNegatives(s: Cp0State, asid: bv8)
    requires Cold(s)
    ensures NegativesMiss(s, asid)
  {}

  // ----- Exactly when a fixed TLB is free of aborts -----

  /** The page of `v` does not translate to a clean page under `a`, nor
      translate under `a` but not under `b`. */
  predicate PortableAt(tlb: seq<TlbEntry>, v: bv64, a: bv8, b: bv8) {
    var walk := ProbeSlow(tlb, a, v, Load);
    walk.Hit? ==> walk.dirty && ProbeSlow(tlb, b, v, Load).Hit?
  }

  /** Every page that translates is writable, and translates under every ASID. */
  ghost predicate Portable(tlb: seq<TlbEntry>) {
    forall v: bv64, a: bv8, b: bv8 :: PortableAt(tlb, v, a, b)
  }

  lemma StoreFaultsAsLoad(tlb: seq<TlbEntry>, a: bv8, v: bv64)
    ensures ProbeSlow(tlb, a, v, Store) ==
      match ProbeSlow(tlb, a, v, Load)
      case Fault(e) => Fault(e)
      case Hit(p, c, n, d) => if d then Hit(p, c, n, d) else Fault(Modification)
  {
    hide HalfOf, Combine, LoValid, LoDirty, LoCached, Find;
  }

  lemma PortableMissesEverywhere(tlb: seq<TlbEntry>, asid: bv8, other: bv8, v: bv64, access: Access)
    requires Portable(tlb) && ProbeSlow(tlb, asid, v, access).Fault?
    ensures ProbeSlow(tlb, other, v, Load).Fault?
  {
    hide ProbeSlow;
    StoreFaultsAsLoad(tlb, asid, v);
    assert PortableAt(tlb, v, asid, other);
    assert PortableAt(tlb, v, other, asid);
  }

  /** A line that cannot lead to the abort under any ASID: a writable hit, or a miss
      that is a miss everywhere. */
  ghost predicate LineSafe(tlb: seq<TlbEntry>, v: bv64, line: CacheLine) {
    line.valid && line.tag == CacheTag(v) ==>
      if line.hit then line.dirty else forall a: bv8 :: ProbeSlow(tlb, a, BaseAddress(v), Load).Fault?
  }

  ghost predicate Safe(s: Cp0State) {
    forall v: bv64, w :: 0 <= w < WAYS ==> LineSafe(s.tlb, v, s.cache[CacheIndex(v)][w])
  }

  lemma PortableHitIsDirty(tlb: seq<TlbEntry>, asid: bv8, v: bv64, access: Access)
    requires Portable(tlb) && ProbeSlow(tlb, asid, v, access).Hit?
    ensures ProbeSlow(tlb, asid, v, access).dirty
  {
    hide ProbeSlow;
    StoreFaultsAsLoad(tlb, asid, v);
    assert PortableAt(tlb, v, asid, asid);
  }

  lemma NewLineSafe(tlb: seq<TlbEntry>, asid: bv8, v: bv64, access: Access, cachedIn: bool, junk: bv32, u: bv64)
    requires Portable(tlb) && CacheIndex(u) == CacheIndex(v)
    ensures LineSafe(tlb, u, NewLine(tlb, asid, v, access, cachedIn, junk))
  {
    hide BaseAddress, CacheTag, CacheIndex, ProbeSlow, Portable;
    if CacheTag(u) == CacheTag(v) {
      KeyFixesBase(u, v);
      if ProbeSlow(tlb, asid, BaseAddress(v), access).Hit? {
        PortableHitIsDirty(tlb, asid, BaseAddress(v), access);
      } else {
        forall a: bv8 ensures ProbeSlow(tlb, a, BaseAddress(v), Load).Fault? {
          PortableMissesEverywhere(tlb, asid, a, BaseAddress(v), access);
        }
      }
    }
  }

  lemma SafeLineAnswers(tlb: seq<TlbEntry>, asid: bv8, v: bv64, access: Access, line: CacheLine)
    requires LineSafe(tlb, v, line) && line.valid && line.tag == CacheTag(v)
    ensures FromCacheLine(tlb, asid, line, v, access).Answer?
  {
    hide BaseAddress, CacheTag, ProbeSlow, AddOffset;
    if !line.hit {
      LoadFaultsIfBaseDoes(tlb, asid, v, access);
    }
  }

  lemma PortableProbeAnswers(s: Cp0State, op: Op)
    requires s.Valid() && OpOk(op) && op.OpProbe? && Portable(s.tlb) && Safe(s)
    ensures OutcomeOf(s, op).Answer?
  {
    hide BaseAddress, CacheTag, CacheIndex, ProbeSlow, AsidOf, NewLine, FromCacheLine, LineSafe, Portable, DestFrom;
    var v, ways := op.vaddr, s.cache[CacheIndex(op.vaddr)];
    var found := LookupFrom(ways, CacheTag(v), s.Asid(), 0);
    if found.Some? {
      assert LineSafe(s.tlb, v, ways[found.value]);
      SafeLineAnswers(s.tlb, s.Asid(), v, op.access, ways[found.value]);
    } else {
      NewLineSafe(s.tlb, s.Asid(), v, op.access, op.cachedIn, op.junk, v);
      NewLineMatches(s.tlb, s.Asid(), s.Asid(), v, op.access, op.cachedIn, op.junk);
      SafeLineAnswers(s.tlb, s.Asid(), v, op.access, NewLine(s.tlb, s.Asid(), v, op.access, op.cachedIn, op.junk));
    }
  }

  lemma PortableStepKeepsSafe(s: Cp0State, op: Op)
    requires s.Valid() && OpOk(op) && !op.OpTlbwi? && Portable(s.tlb) && Safe(s)
    ensures Safe(Step(s, op)) && Step(s, op).tlb == s.tlb
  {
    hide BaseAddress, CacheTag, CacheIndex, ProbeSlow, AsidOf, NewLine, FromCacheLine, LineSafe, Portable;
    if op.OpProbe? {
      var s' := Step(s, op);
      forall u: bv64, w | 0 <= w < WAYS ensures LineSafe(s'.tlb, u, s'.cache[CacheIndex(u)][w]) {
        assert LineSafe(s.tlb, u, s.cache[CacheIndex(u)][w]);
        if CacheIndex(u) == CacheIndex(op.vaddr) {
          NewLineSafe(s.tlb, s.Asid(), op.vaddr, op.access, op.cachedIn, op.junk, u);
        }
      }
    }
  }

  lemma {:induction false} PortableRunsNeverAbort(s: Cp0State, ops: Ops)
    requires s.Valid() && FixedTlb(ops) && Portable(s.tlb) && Safe(s)
    ensures RunNeverAborts(s, ops)
    decreases |ops|
  {
    hide Step, Safe, AsidOf, Probe, Portable;
    if ops != [] {
      if ops[0].OpProbe? {
        PortableProbeAnswers(s, ops[0]);
      }
      PortableStepKeepsSafe(s, ops[0]);
      PortableRunsNeverAbort(Step(s, ops[0]), ops[1..]);
    }
  }

  lemma FourthOpAnswers(s: Cp0State, ops: Ops)
    requires s.Valid() && |ops| == 4 && ops[3].OpProbe? && RunNeverAborts(s, ops)
    ensures OutcomeOf(BeforeFourth(s, ops), ops[3]).Answer?
  {
    hide Step, OutcomeOf;
    var s1 := Step(s, ops[0]);
    var s2 := Step(s1, ops[1]);
    var s3 := Step(s2, ops[2]);
    assert RunNeverAborts(s1, ops[1..]);
    assert RunNeverAborts(s2, ops[1..][1..]);
    assert RunNeverAborts(s3, ops[1..][1..][1..]);
  }

  /** Either way of not being portable gives a run that aborts: fault once under
      `a` (by a store to a clean page, or because `a` does not map the page),
      then load under `b`, where the page translates. */
  lemma FaultThenHitAborts(s: Cp0State, v: bv64, first: Access, a: bv8, b: bv8)
    requires s.Valid() && Cold(s)
    requires ProbeSlow(s.tlb, a, v, first).Fault? && ProbeSlow(s.tlb, b, v, Load).Hit?
    ensures !RunNeverAborts(s, TwoAsidRun(v, first, a, b))
  {
    hide ProbeSlow, CacheTag, BaseAddress, CacheIndex, AsidOf, OutcomeOf, BeforeFourth, TwoAsidRun, RunNeverAborts;
    WalkAtOffset(s.tlb, a, v, first);
    SecondProbeUsesLine(s, v, first, a, b);
    if RunNeverAborts(s, TwoAsidRun(v, first, a, b)) {
      FourthOpAnswers(s, TwoAsidRun(v, first, a, b));
    }
  }

  /** Over a fixed TLB, shadowed entries or not, no run aborts if and only if every
      page that translates is writable and translates under every ASID. */
  lemma AbortFreeIffPortable(s: Cp0State)
    requires s.Valid() && Cold(s)
    ensures Portable(s.tlb) <==> forall ops: Ops :: FixedTlb(ops) ==> RunNeverAborts(s, ops)
  {
    hide Step, Probe, ProbeSlow, TwoAsidRun;
    if Portable(s.tlb) {
      forall ops: Ops | FixedTlb(ops) ensures RunNeverAborts(s, ops) {
        PortableRunsNeverAbort(s, ops);
      }
    } else {
      var v, a, b :| !PortableAt(s.tlb, v, a, b);
      var walk := ProbeSlow(s.tlb, a, v, Load);
      if !walk.dirty {
        StoreFaultsAsLoad(s.tlb, a, v);
        FaultThenHitAborts(s, v, Store, a, a);
        assert !RunNeverAborts(s, TwoAsidRun(v, Store, a, a));
      } else {
        FaultThenHitAborts(s, v, Load, b, a);
        assert !RunNeverAborts(s, TwoAsidRun(v, Load, b, a));
      }
    }
  }

  /** The page of `v` does not translate to a clean page under `a`. */
  predicate WritableAt(tlb: seq<TlbEntry>, a: bv8, v: bv64) {
    ProbeSlow(tlb, a, v, Load).Hit? ==> ProbeSlow(tlb, a, v, Load).dirty
  }

  ghost predicate WritableUnder(tlb: seq<TlbEntry>, a: bv8) {
    forall v: bv64 :: WritableAt(tlb, a, v)
  }

  lemma {:induction false} WritableRunsAreTame(s: Cp0State, ops: Ops, asid: bv8)
    requires s.Valid() && FixedTlb(ops) && KeepsAsid(s, ops, asid) && WritableUnder(s.tlb, asid)
    ensures RunIsTame(s, ops, asid)
    decreases |ops|
  {
    hide ProbeSlow, AsidOf, WritableUnder;
    if ops != [] {
      if ops[0].OpProbe? {
        StoreOfWritable(s.tlb, asid, ops[0].vaddr, ops[0].access);
      }
      hide Probe;
      WritableRunsAreTame(Step(s, ops[0]), ops[1..], asid);
    }
  }

  lemma StoreOfWritable(tlb: seq<TlbEntry>, a: bv8, v: bv64, access: Access)
    requires WritableUnder(tlb, a)
    ensures ProbeSlow(tlb, a, v, access) != Fault(Modification)
  {
    hide HalfOf, Combine, LoValid, LoDirty, LoCached, Find;
    assert WritableAt(tlb, a, v);
    StoreFaultsAsLoad(tlb, a, v);
  }

  lemma OneAsidRunKeepsAsid(s: Cp0State, v: bv64, a: bv8)
    requires s.Valid() && s.Asid() == a
    ensures KeepsAsid(s, TwoAsidRun(v, Store, a, a), a)
  {
    AsidRoundTrip(a);
    hide Probe, AsidOf;
    var ops := TwoAsidRun(v, Store, a, a);
    var s1 := Step(s, ops[0]);
    var s2 := Step(s1, ops[1]);
    var s3 := Step(s2, ops[2]);
    var s4 := Step(s3, ops[3]);
    assert KeepsAsid(s4, [], a);
    assert ops[3..] == [ops[3]] && ops[2..][1..] == ops[3..] && ops[1..][1..] == ops[2..];
    assert KeepsAsid(s3, ops[3..], a);
    assert KeepsAsid(s2, ops[2..], a);
    assert KeepsAsid(s1, ops[1..], a);
  }

  /** Over a fixed TLB and a fixed ASID, no run aborts if and only if every page that
      translates under that ASID is writable. */
  lemma AbortFreeUnderAsidIffWritable(s: Cp0State)
    requires s.Valid() && Cold(s)
    ensures WritableUnder(s.tlb, s.Asid()) <==>
      forall ops: Ops :: FixedTlb(ops) && KeepsAsid(s, ops, s.Asid()) ==> RunNeverAborts(s, ops)
  {
    hide Step, Probe, ProbeSlow, TwoAsidRun, AsidOf, CacheIndex;
    var a := s.Asid();
    if WritableUnder(s.tlb, a) {
      ColdHasNoNegatives(s, a);
      ColdIsCoherent(s);
      forall ops: Ops | FixedTlb(ops) && KeepsAsid(s, ops, a) ensures RunNeverAborts(s, ops) {
        WritableRunsAreTame(s, ops, a);
        TameRunsNeverAbort(s, ops);
      }
    } else {
      var v :| !WritableAt(s.tlb, a, v);
      StoreFaultsAsLoad(s.tlb, a, v);
      FaultThenHitAborts(s, v, Store, a, a);
      OneAsidRunKeepsAsid(s, v, a);
      assert !RunNeverAborts(s, TwoAsidRun(v, Store, a, a));
    }
  }

  // ----- TLB instructions -----

  lemma NormalizeIdempotent(mask: bv12)
    ensures NormalizePageMask(NormalizePageMask(mask)) == NormalizePageMask(mask)
  {}

  lemma StoredHiIdempotent(hi: bv64, mask: bv12)
    ensures StoredHi(StoredHi(hi, mask), mask) == StoredHi(hi, mask)
  {}

  lemma ReadLoGlobal(lo: bv32, g: bool)
    ensures GlobalBit(ReadLo(lo, g)) == g
  {}

  lemma ReadLoRestores(lo: bv32, g: bool)
    ensures StoredLo(ReadLo(StoredLo(lo), g)) == StoredLo(lo)
  {
    if g {
      ReadGlobalLoRestores(lo);
    } else {
      ReadLocalLoRestores(lo);
    }
  }

  lemma ReadGlobalLoRestores(lo: bv32)
    ensures StoredLo(ReadLo(StoredLo(lo), true)) == StoredLo(lo)
  {}

  lemma ReadLocalLoRestores(lo: bv32)
    ensures StoredLo(ReadLo(StoredLo(lo), false)) == StoredLo(lo)
  {}

  /** An entry as TLBWI stores it. */
  ghost predicate StoredByTlbwi(e: TlbEntry) {
    exists s: Cp0State :: e == WrittenEntry(s)
  }

  lemma WrittenAgain(w: Cp0State, s: Cp0State, index: nat)
    requires index < |s.tlb| && s.tlb[index] == WrittenEntry(w)
    ensures WrittenEntry(Tlbr(s, index)) == WrittenEntry(w)
  {
    hide StoredHi, StoredLo, ReadLo, GlobalBit, NormalizePageMask;
    var e := WrittenEntry(w);
    NormalizeIdempotent(w.pageMask);
    StoredHiIdempotent(w.entryHi, e.pageMask);
    ReadLoRestores(w.entryLo0, e.global);
    ReadLoRestores(w.entryLo1, e.global);
    ReadLoGlobal(e.entryLo0, e.global);
    ReadLoGlobal(e.entryLo1, e.global);
  }

  /** Reading a stored entry into the registers and writing it again at any index
      reproduces it bit for bit. */
  lemma TlbrThenTlbwiRestores(s: Cp0State, index: nat, target: nat)
    requires s.Valid() && index < ENTRIES && target < ENTRIES
    requires StoredByTlbwi(s.tlb[index])
    ensures Tlbwi(Tlbr(s, index), target).tlb == s.tlb[target := s.tlb[index]]
  {
    hide ClearRange, WrittenEntry, ReadLo;
    var w: Cp0State :| s.tlb[index] == WrittenEntry(w);
    WrittenAgain(w, s, index);
  }

  lemma WrittenHiMatches(s: Cp0State)
    ensures Matches(WrittenEntry(s), s.Asid(), s.entryHi)
  {
    hide NormalizePageMask, GetVpn, AsidOf, StoredHi, StoredLo, GlobalBit;
    StoredVpn(s.entryHi, NormalizePageMask(s.pageMask));
    StoredAsid(s.entryHi, NormalizePageMask(s.pageMask));
  }

  lemma StoredVpn(hi: bv64, mask: bv12)
    ensures GetVpn(StoredHi(hi, mask), mask) == GetVpn(hi, mask)
  {}

  lemma StoredAsid(hi: bv64, mask: bv12)
    ensures AsidOf(StoredHi(hi, mask)) == AsidOf(hi)
  {}

  /** After TLBWI at `index`, TLBP finds `index` if and only if no lower entry
      matches EntryHi; in particular it does when no entries overlap. */
  lemma TlbpFindsWritten(s: Cp0State, index: nat)
    requires s.Valid() && index < ENTRIES
    ensures
      var s' := Tlbwi(s, index);
      && (Tlbp(s') == index <==> forall k :: 0 <= k < index ==> !Matches(s.tlb[k], s.Asid(), s.entryHi))
      && (NoOverlap(s'.tlb) ==> Tlbp(s') == index)
  {
    hide ClearRange, GetVpn, AsidOf, WrittenEntry;
    var s' := Tlbwi(s, index);
    WrittenHiMatches(s);
    assert s'.tlb[index] == WrittenEntry(s) && s'.entryHi == s.entryHi;
    assert forall k :: 0 <= k < index ==> s'.tlb[k] == s.tlb[k];
    var found := Find(s'.tlb, s'.Asid(), s'.entryHi);
    assert Matches(s'.tlb[index], s'.Asid(), s'.entryHi);
    assert found.Some? && found.value <= index;
  }
}
