/** Whole runs of probes, TLB writes and CP0 register writes. */
module TlbRuns {
  import opened TlbSpec
  import opened TlbProofs

  datatype Op =
    | OpProbe(vaddr: bv64, access: Access, victim: nat, cachedIn: bool, junk: bv32)
    | OpTlbwi(index: nat)
    | OpTlbr(index: nat)
    | OpWriteRegs(entryHi: bv64, entryLo0: bv32, entryLo1: bv32, pageMask: bv12)

  predicate OpOk(op: Op) {
    match op
    case OpProbe(_, _, victim, _, _) => victim < WAYS
    case OpTlbwi(index) => index < ENTRIES
    case OpTlbr(index) => index < ENTRIES
    case OpWriteRegs(_, _, _, _) => true
  }

  type Ops = s: seq<Op> | forall i :: 0 <= i < |s| ==> OpOk(s[i])

  function Step(s: Cp0State, op: Op): (r: Cp0State)
    requires s.Valid() && OpOk(op)
    ensures r.Valid()
  {
    match op
    case OpProbe(v, a, w, c, j) => Probe(s, v, a, w, c, j).0
    case OpTlbwi(i) => Tlbwi(s, i)
    case OpTlbr(i) => Tlbr(s, i)
    case OpWriteRegs(hi, lo0, lo1, m) => s.(entryHi := hi, entryLo0 := lo0, entryLo1 := lo1, pageMask := m)
  }

  function OutcomeOf(s: Cp0State, op: Op): Outcome
    requires s.Valid() && OpOk(op) && op.OpProbe?
  {
    Probe(s, op.vaddr, op.access, op.victim, op.cachedIn, op.junk).1
  }

  function WalkOf(s: Cp0State, op: Op): Walk
    requires op.OpProbe?
  {
    ProbeSlow(s.tlb, s.Asid(), op.vaddr, op.access)
  }

  /** If the probe returns, it returns what the walk returns. */
  predicate Agrees(s: Cp0State, op: Op)
    requires s.Valid() && OpOk(op)
  {
    op.OpProbe? && OutcomeOf(s, op).Answer? ==> OutcomeOf(s, op).t == View(WalkOf(s, op))
  }

  predicate RunAgrees(s: Cp0State, ops: Ops)
    requires s.Valid()
    decreases |ops|
  {
    ops != [] ==> Agrees(s, ops[0]) && RunAgrees(Step(s, ops[0]), ops[1..])
  }

  ghost predicate RunUnshadowed(s: Cp0State, ops: Ops)
    requires s.Valid()
    decreases |ops|
  {
    NoShadow(s.tlb) && (ops != [] ==> RunUnshadowed(Step(s, ops[0]), ops[1..]))
  }

  /** Way `w` of the set for `v` answers for `v` under the current ASID, with a recorded miss. */
  predicate NegativeWay(s: Cp0State, v: bv64, w: nat) {
    w < WAYS &&
    var line := s.cache[CacheIndex(v)][w];
    LineMatches(line, CacheTag(v), s.Asid()) && !line.hit
  }

  lemma NewLineMatches(tlb: seq<TlbEntry>, a: bv8, b: bv8, v: bv64, access: Access, cachedIn: bool, junk: bv32)
    requires NewLine(tlb, a, v, access, cachedIn, junk).global || a == b
    ensures LineMatches(NewLine(tlb, a, v, access, cachedIn, junk), CacheTag(v), b)
  {
    hide CacheTag, ProbeSlow, BaseAddress;
    match ProbeSlow(tlb, a, BaseAddress(v), access)
    case Fault(_) =>
    case Hit(_, _, _, _) =>
  }

  lemma ProbeAgrees(s: Cp0State, op: Op)
    requires s.Valid() && OpOk(op) && op.OpProbe?
    requires CoherentUnder(s, s.Asid())
    ensures Agrees(s, op)
    ensures OutcomeOf(s, op).Abort? ==> WalkOf(s, op).Hit? && exists w :: NegativeWay(s, op.vaddr, w)
  {
    hide BaseAddress, CacheTag, ProbeSlow, AsidOf, CacheIndex, NewLine, FromCacheLine, SoundUnder, DestFrom;
    var v := op.vaddr;
    var ways := s.cache[CacheIndex(v)];
    var found := LookupFrom(ways, CacheTag(v), s.Asid(), 0);
    if found.Some? {
      assert SoundUnder(s.tlb, s.Asid(), v, ways[found.value]);
      LineAnswers(s.tlb, s.Asid(), ways[found.value], v, op.access);
      assert !ways[found.value].hit ==> NegativeWay(s, v, found.value);
    } else {
      NewLineSound(s.tlb, s.Asid(), v, op.access, op.cachedIn, op.junk, s.Asid(), v);
      NewLineMatches(s.tlb, s.Asid(), s.Asid(), v, op.access, op.cachedIn, op.junk);
      LineAnswers(s.tlb, s.Asid(), NewLine(s.tlb, s.Asid(), v, op.access, op.cachedIn, op.junk), v, op.access);
      FreshLineNeverAborts(s.tlb, s.Asid(), v, op.access, op.cachedIn, op.junk);
    }
  }

  lemma FreshLineNeverAborts(tlb: seq<TlbEntry>, asid: bv8, v: bv64, access: Access, cachedIn: bool, junk: bv32)
    ensures !NewLine(tlb, asid, v, access, cachedIn, junk).hit ==> ProbeSlow(tlb, asid, v, access).Fault?
  {
    hide BaseAddress, CacheTag, ProbeSlow;
    WalkAtOffset(tlb, asid, v, access);
  }

  lemma StepKeepsCoherence(s: Cp0State, op: Op)
    requires s.Valid() && OpOk(op) && Coherent(s) && NoShadow(s.tlb)
    ensures Coherent(Step(s, op))
  {
    hide Probe, Tlbwi, CacheIndex;
    match op
    case OpProbe(v, a, w, c, j) => ProbeKeepsCoherence(s, v, a, w, c, j);
    case OpTlbwi(i) => TlbwiKeepsCoherence(s, i);
    case OpTlbr(_) => RegistersApart(s, Step(s, op));
    case OpWriteRegs(_, _, _, _) => RegistersApart(s, Step(s, op));
  }

  lemma RegistersApart(s: Cp0State, t: Cp0State)
    requires Coherent(s) && t.tlb == s.tlb && t.cache == s.cache
    ensures Coherent(t)
  {
    hide SoundUnder, CacheIndex;
    forall asid: bv8 ensures CoherentUnder(t, asid) {
      assert CoherentUnder(s, asid);
    }
  }

  /** Refinement: along every run that keeps the TLB free of shadowed global
      entries, each probe that returns gives the verdict, physical address,
      cacheability and entry number of the 32-entry walk. */
  lemma {:induction false} CacheRefinesWalk(s: Cp0State, ops: Ops)
    requires s.Valid() && Coherent(s) && RunUnshadowed(s, ops)
    ensures RunAgrees(s, ops)
    decreases |ops|
  {
    assert CoherentUnder(s, s.Asid());
    hide Agrees, Step, Coherent, CoherentUnder, NoShadow, AsidOf;
    if ops != [] {
      if ops[0].OpProbe? {
        ProbeAgrees(s, ops[0]);
      } else {
        NotAProbe(s, ops[0]);
      }
      StepKeepsCoherence(s, ops[0]);
      CacheRefinesWalk(Step(s, ops[0]), ops[1..]);
    }
  }

  /** The ASID is the same before every operation of the run. */
  predicate KeepsAsid(s: Cp0State, ops: Ops, asid: bv8)
    requires s.Valid()
    decreases |ops|
  {
    s.Asid() == asid && (ops != [] ==> KeepsAsid(Step(s, ops[0]), ops[1..], asid))
  }

  lemma StepKeepsSound(s: Cp0State, op: Op)
    requires s.Valid() && OpOk(op) && CoherentUnder(s, s.Asid())
    ensures CoherentUnder(Step(s, op), s.Asid())
  {
    hide Probe, Tlbwi, CacheIndex, AsidOf;
    match op
    case OpProbe(v, a, w, c, j) => ProbeKeepsSound(s, v, a, w, c, j, s.Asid());
    case OpTlbwi(i) => TlbwiKeepsSound(s, i, s.Asid());
    case OpTlbr(_) =>
    case OpWriteRegs(_, _, _, _) =>
  }

  /** While the ASID stays the same, the cache agrees with the walk on every run,
      overlapping and shadowed entries included. */
  lemma {:induction false} FixedAsidRefinesWalk(s: Cp0State, ops: Ops)
    requires s.Valid() && CoherentUnder(s, s.Asid()) && KeepsAsid(s, ops, s.Asid())
    ensures RunAgrees(s, ops)
    decreases |ops|
  {
    hide Agrees, Step, CoherentUnder, AsidOf;
    if ops != [] {
      if ops[0].OpProbe? {
        ProbeAgrees(s, ops[0]);
      } else {
        NotAProbe(s, ops[0]);
      }
      StepKeepsSound(s, ops[0]);
      FixedAsidRefinesWalk(Step(s, ops[0]), ops[1..]);
    }
  }

  lemma NotAProbe(s: Cp0State, op: Op)
    requires s.Valid() && OpOk(op) && !op.OpProbe?
    ensures Agrees(s, op)
  {}

  // ----- Exactly when the cache agrees -----

  predicate FixedTlb(ops: Ops) {
    forall i :: 0 <= i < |ops| ==> !ops[i].OpTlbwi?
  }

  lemma {:induction false} FixedTlbStaysUnshadowed(s: Cp0State, ops: Ops)
    requires s.Valid() && NoShadow(s.tlb) && FixedTlb(ops)
    ensures RunUnshadowed(s, ops)
    decreases |ops|
  {
    hide NoShadow, Probe;
    if ops != [] {
      FixedTlbStaysUnshadowed(Step(s, ops[0]), ops[1..]);
    }
  }

  /** The elements of `used` with low bit `b`, shifted down. */
  function Halve(used: seq<bv8>, b: bv8): seq<bv8> {
    if used == [] then []
    else (if used[0] & 1 == b then [used[0] >> 1] else []) + Halve(used[1..], b)
  }

  lemma {:induction false} HalveMember(used: seq<bv8>, u: bv8)
    requires u in used
    ensures u >> 1 in Halve(used, u & 1)
  {
    if used[0] != u {
      HalveMember(used[1..], u);
    }
  }

  lemma {:induction false} HalvesShare(used: seq<bv8>)
    ensures |Halve(used, 0)| + |Halve(used, 1)| <= |used|
  {
    if used != [] {
      HalvesShare(used[1..]);
    }
  }

  function Mask(k: nat): bv8 { if k == 0 then 0 else (Mask(k - 1) << 1) | 1 }

  function Pow2(k: nat): nat { if k == 0 then 1 else 2 * Pow2(k - 1) }

  lemma Extend(a: bv8, b: bv8, m: bv8)
    requires a & !m == 0 && m & 0x80 == 0 && b & !1 == 0
    ensures ((a << 1) | b) >> 1 == a && ((a << 1) | b) & 1 == b
    ensures ((a << 1) | b) & !((m << 1) | 1) == 0
  {}

  lemma MaskTop(k: nat)
    requires k < 5
    ensures Mask(k) & 0x80 == 0
  {
    assert Mask(2) == 3;
    assert Mask(4) == 15;
  }

  /** Fewer than 2^k values leave some k-bit value unused. */
  lemma {:induction false} FreshValue(used: seq<bv8>, k: nat) returns (a: bv8)
    requires |used| < Pow2(k) && k <= 5
    ensures a !in used && a & !Mask(k) == 0
    decreases k
  {
    if k == 0 {
      a := 0;
    } else {
      HalvesShare(used);
      var b: bv8 := if |Halve(used, 0)| < Pow2(k - 1) then 0 else 1;
      var c := FreshValue(Halve(used, b), k - 1);
      MaskTop(k - 1);
      Extend(c, b, Mask(k - 1));
      a := (c << 1) | b;
      if a in used {
        HalveMember(used, a);
      }
    }
  }

  lemma FreshAsid(tlb: seq<TlbEntry>, j: nat) returns (a: bv8)
    requires j <= |tlb| && j < ENTRIES
    ensures forall k :: 0 <= k < j ==> AsidOf(tlb[k].entryHi) != a
  {
    hide AsidOf;
    var used := seq(j, k requires 0 <= k < j => AsidOf(tlb[k].entryHi));
    assert Pow2(5) == 32;
    a := FreshValue(used, 5);
    forall k | 0 <= k < j ensures AsidOf(tlb[k].entryHi) != a {
      assert used[k] == AsidOf(tlb[k].entryHi);
    }
  }

  lemma AsidRoundTrip(a: bv8)
    ensures AsidOf(a as bv64) == a
  {}

  function SetAsid(a: bv8): Op { OpWriteRegs(a as bv64, 0, 0, 0) }

  function SimpleProbe(v: bv64, access: Access): Op { OpProbe(v, access, 0, false, 0) }

  /** Probe `v` under one ASID, change the ASID, probe `v` again. */
  function TwoAsidRun(v: bv64, first: Access, a: bv8, b: bv8): (ops: Ops)
    ensures FixedTlb(ops)
  {
    [SetAsid(a), SimpleProbe(v, first), SetAsid(b), SimpleProbe(v, Load)]
  }

  /** The state in which the last of four operations starts. */
  function BeforeFourth(s: Cp0State, ops: Ops): (r: Cp0State)
    requires s.Valid() && |ops| == 4
    ensures r.Valid()
  {
    Step(Step(Step(s, ops[0]), ops[1]), ops[2])
  }

  lemma FourthOpAgrees(s: Cp0State, ops: Ops)
    requires s.Valid() && |ops| == 4 && RunAgrees(s, ops)
    ensures Agrees(BeforeFourth(s, ops), ops[3])
  {
    hide Step, Agrees;
    var s1 := Step(s, ops[0]);
    var s2 := Step(s1, ops[1]);
    var s3 := Step(s2, ops[2]);
    assert RunAgrees(s1, ops[1..]);
    assert RunAgrees(s2, ops[1..][1..]);
    assert RunAgrees(s3, ops[1..][1..][1..]);
  }

  lemma ColdProbeFills(s: Cp0State, v: bv64, access: Access)
    requires s.Valid() && Cold(s)
    ensures
      var line := NewLine(s.tlb, s.Asid(), v, access, false, 0);
      Step(s, SimpleProbe(v, access)).cache[CacheIndex(v)][0] == line
  {
    hide CacheIndex, CacheTag, ProbeSlow, AsidOf, NewLine;
    var x := CacheIndex(v);
    assert forall w :: 0 <= w < WAYS ==> !s.cache[x][w].valid;
    assert LookupFrom(s.cache[x], CacheTag(v), s.Asid(), 0).None?;
  }

  lemma FirstWayAnswers(s: Cp0State, v: bv64, access: Access)
    requires s.Valid() && LineMatches(s.cache[CacheIndex(v)][0], CacheTag(v), s.Asid())
    ensures OutcomeOf(s, SimpleProbe(v, access)) ==
      FromCacheLine(s.tlb, s.Asid(), s.cache[CacheIndex(v)][0], v, access)
  {
    hide CacheIndex, CacheTag, ProbeSlow, AsidOf, FromCacheLine;
    assert LookupFrom(s.cache[CacheIndex(v)], CacheTag(v), s.Asid(), 0) == Some(0);
  }

  /** From a cold cache the second probe uses the line the first one recorded. */
  lemma SecondProbeUsesLine(s: Cp0State, v: bv64, first: Access, a: bv8, b: bv8)
    requires s.Valid() && Cold(s)
    requires NewLine(s.tlb, a, v, first, false, 0).global || a == b
    ensures
      var ops := TwoAsidRun(v, first, a, b);
      var s3 := BeforeFourth(s, ops);
      && |ops| == 4 && ops[3].OpProbe? && ops[3].vaddr == v && ops[3].access == Load
      && s3.tlb == s.tlb && s3.Asid() == b
      && OutcomeOf(s3, ops[3]) == FromCacheLine(s.tlb, b, NewLine(s.tlb, a, v, first, false, 0), v, Load)
  {
    hide CacheIndex, CacheTag, ProbeSlow, AsidOf, NewLine, Probe, FromCacheLine, LineMatches;
    AsidRoundTrip(a);
    AsidRoundTrip(b);
    ColdProbeFills(Step(s, SetAsid(a)), v, first);
    NewLineMatches(s.tlb, a, b, v, first, false, 0);
    FirstWayAnswers(BeforeFourth(s, TwoAsidRun(v, first, a, b)), v, Load);
  }

  /** A shadowed global entry makes the cache answer with the wrong entry. */
  lemma ShadowBreaksCache(s: Cp0State, v: bv64, i: nat, j: nat)
    requires s.Valid() && Cold(s) && ShadowedAt(s.tlb, v, i, j)
    ensures exists ops: Ops :: FixedTlb(ops) && !RunAgrees(s, ops)
  {
    hide GetVpn, HalfOf, LoValid, AsidOf, CacheTag, CacheIndex, NewLine, FromCacheLine, ProbeSlow, BeforeFourth, Probe;
    var a := FreshAsid(s.tlb, j);
    var b := AsidOf(s.tlb[i].entryHi);
    WrongEntry(s.tlb, v, i, j, a, b);
    SecondProbeUsesLine(s, v, Load, a, b);
    var ops := TwoAsidRun(v, Load, a, b);
    if RunAgrees(s, ops) {
      FourthOpAgrees(s, ops);
    }
    assert !RunAgrees(s, ops);
  }

  /** The walk picks `j` under `a` and something before `j` under `b`. */
  lemma WrongEntry(tlb: seq<TlbEntry>, v: bv64, i: nat, j: nat, a: bv8, b: bv8)
    requires ShadowedAt(tlb, v, i, j)
    requires forall k :: 0 <= k < j ==> AsidOf(tlb[k].entryHi) != a
    requires b == AsidOf(tlb[i].entryHi)
    ensures
      var line := NewLine(tlb, a, v, Load, false, 0);
      && line.global
      && FromCacheLine(tlb, b, line, v, Load).Answer?
      && FromCacheLine(tlb, b, line, v, Load) != Answer(View(ProbeSlow(tlb, b, v, Load)))
  {
    hide GetVpn, AsidOf, Combine, LoValid, LoDirty, LoCached, BaseAddress, CacheTag, HalfOf, SamePage, AddOffset;
    assert Matches(tlb[i], b, v) && Matches(tlb[j], a, v);
    forall k | 0 <= k < j ensures !Matches(tlb[k], a, v) {}
    assert Find(tlb, a, v) == Some(j);
    assert Find(tlb, b, v).value <= i;
    WalkAtOffset(tlb, a, v, Load);
  }

  /** The cache agrees with the walk on every run over a fixed TLB if and only if
      the TLB holds no shadowed global entry. */
  lemma CacheExactIffUnshadowed(s: Cp0State)
    requires s.Valid() && Cold(s)
    ensures NoShadow(s.tlb) <==> forall ops: Ops :: FixedTlb(ops) ==> RunAgrees(s, ops)
  {
    hide Agrees, Step, ShadowedAt;
    if NoShadow(s.tlb) {
      ColdIsCoherent(s);
      forall ops: Ops | FixedTlb(ops) ensures RunAgrees(s, ops) {
        FixedTlbStaysUnshadowed(s, ops);
        CacheRefinesWalk(s, ops);
      }
    } else {
      var v, i, j :| ShadowedAt(s.tlb, v, i, j);
      ShadowBreaksCache(s, v, i, j);
    }
  }
}
