/** The vector unit's registers, updated lane by lane (scalar loops) or eight lanes
    at once (SSE2 bodies). Both are tied to one function of the old state. */
module RspUnit {
  import opened RspLanes
  import opened RspSimd
  import opened RspMeaning

  type Flags = f: seq<bool> | |f| == 8 witness [false, false, false, false, false, false, false, false]

  type Regs = r: seq<Vec> | |r| == 32 witness seq<Vec>(32, _ => ZERO)

  datatype VuState = VuState(regs: Regs, acc: VecAcc, vccH: Flags, vccL: Flags, vcoH: Flags, vcoL: Flags, vce: Flags)

  function LaneOf(u: VuState, i: nat): Lane
    requires i < 8
  {
    Lane(LaneAcc(u.acc, i), u.vccH[i], u.vccL[i], u.vcoH[i], u.vcoL[i], u.vce[i])
  }

  datatype Instr = Instr(op: Op, vs: nat, vt: nat, vd: nat, e: nat) {
    predicate Valid() { vs < 32 && vt < 32 && vd < 32 && e < 16 }
  }

  function StepLane(u: VuState, n: Instr, i: nat): (Lane, u16)
    requires n.Valid() && i < 8
  {
    Step(n.op, LaneOf(u, i), u.regs[n.vs][i], GetVte(u.regs[n.vt], n.e)[i])
  }

  /** `u` after the instruction: every lane steps, only the destination changes. */
  ghost predicate Executed(u: VuState, n: Instr, u': VuState)
    requires n.Valid()
  {
    && (forall i :: 0 <= i < 8 ==> StepLane(u, n, i) == (LaneOf(u', i), u'.regs[n.vd][i]))
    && (forall r :: 0 <= r < 32 && r != n.vd ==> u'.regs[r] == u.regs[r])
  }

  lemma SameLanesSameVec(a: Vec, b: Vec)
    requires forall i :: 0 <= i < 8 ==> a[i] == b[i]
    ensures a == b
  {}

  lemma SameLanesSameFlags(a: Flags, b: Flags)
    requires forall i :: 0 <= i < 8 ==> a[i] == b[i]
    ensures a == b
  {}

  /** The outcome is unique, so the scalar loop and the SSE body of an instruction
      leave the same registers, accumulators and flags. */
  lemma ExecutedIsUnique(u: VuState, n: Instr, v: VuState, w: VuState)
    requires n.Valid() && Executed(u, n, v) && Executed(u, n, w)
    ensures v == w
  {
    hide Step, GetVte;
    forall i | 0 <= i < 8
      ensures LaneOf(v, i) == LaneOf(w, i) && v.regs[n.vd][i] == w.regs[n.vd][i]
    {
      assert StepLane(u, n, i) == (LaneOf(v, i), v.regs[n.vd][i]);
    }
    SameLanes(v, w);
    SameLanesSameVec(v.regs[n.vd], w.regs[n.vd]);
    forall r | 0 <= r < 32 ensures v.regs[r] == w.regs[r] {}
    assert v.regs == w.regs;
  }

  lemma SameLanes(v: VuState, w: VuState)
    requires forall i :: 0 <= i < 8 ==> LaneOf(v, i) == LaneOf(w, i)
    ensures v.(regs := w.regs) == w
  {
    forall i | 0 <= i < 8
      ensures v.acc.h[i] == w.acc.h[i] && v.acc.m[i] == w.acc.m[i] && v.acc.l[i] == w.acc.l[i]
      ensures v.vccH[i] == w.vccH[i] && v.vccL[i] == w.vccL[i] && v.vcoH[i] == w.vcoH[i]
      ensures v.vcoL[i] == w.vcoL[i] && v.vce[i] == w.vce[i]
    {
      assert LaneOf(v, i) == LaneOf(w, i);
    }
    SameLanesSameVec(v.acc.h, w.acc.h);
    SameLanesSameVec(v.acc.m, w.acc.m);
    SameLanesSameVec(v.acc.l, w.acc.l);
    SameLanesSameFlags(v.vccH, w.vccH);
    SameLanesSameFlags(v.vccL, w.vccL);
    SameLanesSameFlags(v.vcoH, w.vcoH);
    SameLanesSameFlags(v.vcoL, w.vcoL);
    SameLanesSameFlags(v.vce, w.vce);
  }

  function WithLane(u: VuState, i: nat, a: Lane): VuState
    requires i < 8
  {
    u.(acc := VecAcc(u.acc.h[i := a.acc.h], u.acc.m[i := a.acc.m], u.acc.l[i := a.acc.l]),
       vccH := u.vccH[i := a.vccH], vccL := u.vccL[i := a.vccL],
       vcoH := u.vcoH[i := a.vcoH], vcoL := u.vcoL[i := a.vcoL], vce := u.vce[i := a.vce])
  }

  lemma WithLaneLanes(u: VuState, i: nat, a: Lane)
    requires i < 8
    ensures forall k :: 0 <= k < 8 ==> LaneOf(WithLane(u, i, a), k) == if k == i then a else LaneOf(u, k)
  {}

  class VectorUnit {
    const regs: array<Vec>
    var accH: Vec
    var accM: Vec
    var accL: Vec
    var vccH: Flags
    var vccL: Flags
    var vcoH: Flags
    var vcoL: Flags
    var vce: Flags

    ghost predicate Valid()
      reads this
    {
      regs.Length == 32
    }

    ghost function State(): VuState
      requires Valid()
      reads this, regs
    {
      VuState(regs[..], VecAcc(accH, accM, accL), vccH, vccL, vcoH, vcoL, vce)
    }

    constructor ()
      ensures Valid() && fresh(regs)
    {
      regs := new Vec[32](_ => ZERO);
      accH, accM, accL := ZERO, ZERO, ZERO;
      var none: Flags := [false, false, false, false, false, false, false, false];
      vccH, vccL, vcoH, vcoL, vce := none, none, none, none, none;
    }

    /** Writes one lane of the accumulator and the flags. */
    method SetLane(i: nat, a: Lane)
      requires Valid() && i < 8
      modifies this
      ensures Valid() && State() == WithLane(old(State()), i, a)
    {
      accH, accM, accL := accH[i := a.acc.h], accM[i := a.acc.m], accL[i := a.acc.l];
      vccH, vccL := vccH[i := a.vccH], vccL[i := a.vccL];
      vcoH, vcoL, vce := vcoH[i := a.vcoH], vcoL[i := a.vcoL], vce[i := a.vce];
    }

    /** The scalar form of an instruction. The destination may be a source: each lane
        is read before it is written, and the second operand is a copy. */
    method ExecuteScalar(n: Instr)
      requires Valid() && n.Valid()
      modifies this, regs
      ensures Valid() && Executed(old(State()), n, State())
    {
      hide Step, GetVte, WithLane;
      ghost var u := State();
      var vte := GetVte(regs[n.vt], n.e);
      for i := 0 to 8
        invariant Valid()
        invariant forall r :: 0 <= r < 32 && r != n.vd ==> regs[r] == u.regs[r]
        invariant forall k :: i <= k < 8 ==> LaneOf(State(), k) == LaneOf(u, k) && regs[n.vd][k] == u.regs[n.vd][k]
        invariant forall k :: 0 <= k < i ==> StepLane(u, n, k) == (LaneOf(State(), k), regs[n.vd][k])
      {
        var lane := Lane(Acc(accH[i], accM[i], accL[i]), vccH[i], vccL[i], vcoH[i], vcoL[i], vce[i]);
        var (lane', result) := Step(n.op, lane, regs[n.vs][i], vte[i]);
        WithLaneLanes(State(), i, lane');
        SetLane(i, lane');
        regs[n.vd] := regs[n.vd][i := result];
      }
    }

    /** The SSE2 bodies. */
    method ExecuteSse(n: Instr)
      requires Valid() && n.Valid() && n.op in {VMADH, VMADM, VMADN, VABS}
      modifies this, regs
      ensures Valid() && Executed(old(State()), n, State())
    {
      hide Step, GetVte, VmadhSse, VmadmSse, VmadnSse, VabsSse;
      ghost var u := State();
      var vs, vte := regs[n.vs], GetVte(regs[n.vt], n.e);
      var acc := VecAcc(accH, accM, accL);
      var result;
      SseLanes(u, n);
      if n.op == VMADH {
        acc, result := VmadhSse(acc, vs, vte).0, VmadhSse(acc, vs, vte).1;
      } else if n.op == VMADM {
        acc, result := VmadmSse(acc, vs, vte).0, VmadmSse(acc, vs, vte).1;
      } else if n.op == VMADN {
        acc, result := VmadnSse(acc, vs, vte).0, VmadnSse(acc, vs, vte).1;
      } else {
        var (l, r) := VabsSse(vs, vte);
        acc, result := acc.(l := l), r;
      }
      accH, accM, accL := acc.h, acc.m, acc.l;
      regs[n.vd] := result;
    }
  }

  /** The accumulator and destination an SSE body computes. */
  function SseResult(u: VuState, n: Instr): (VecAcc, Vec)
    requires n.Valid()
  {
    var vs, vte := u.regs[n.vs], GetVte(u.regs[n.vt], n.e);
    match n.op
    case VMADH => VmadhSse(u.acc, vs, vte)
    case VMADM => VmadmSse(u.acc, vs, vte)
    case VMADN => VmadnSse(u.acc, vs, vte)
    case _ => (u.acc.(l := VabsSse(vs, vte).0), VabsSse(vs, vte).1)
  }

  lemma SseLanes(u: VuState, n: Instr)
    requires n.Valid() && n.op in {VMADH, VMADM, VMADN, VABS}
    ensures forall i :: 0 <= i < 8 ==>
      StepLane(u, n, i) == (LaneOf(u.(acc := SseResult(u, n).0), i), SseResult(u, n).1[i])
  {
    hide Step, GetVte, VmadhSse, VmadmSse, VmadnSse, VabsSse;
    var vs, vte := u.regs[n.vs], GetVte(u.regs[n.vt], n.e);
    forall i | 0 <= i < 8
      ensures StepLane(u, n, i) == (LaneOf(u.(acc := SseResult(u, n).0), i), SseResult(u, n).1[i])
    {
      if n.op == VMADH {
        VmadhRefines(u.acc, vs, vte, i, LaneOf(u, i));
      } else if n.op == VMADM {
        VmadmRefines(u.acc, vs, vte, i, LaneOf(u, i));
      } else if n.op == VMADN {
        VmadnRefines(u.acc, vs, vte, i, LaneOf(u, i));
      } else {
        VabsRefines(vs, vte, i, LaneOf(u, i));
      }
    }
  }

  // ----- The multiply program on whole registers -----

  /** VMUDL, VMADM, VMADN, VMADH over registers holding the halves of eight S and
      eight T values give all eight products of element `k` of S and the element of T
      that `e` gives to `k`, as long as the first three destinations are not operands. */
  lemma ProgramMultiplies(u0: VuState, u1: VuState, u2: VuState, u3: VuState, u4: VuState,
                          sh: nat, sl: nat, th: nat, tl: nat, d: nat, out: nat, e: nat)
    requires sh < 32 && sl < 32 && th < 32 && tl < 32 && d < 32 && out < 32 && e < 16
    requires d != sh && d != sl && d != th && d != tl
    requires Executed(u0, Instr(VMUDL, sl, tl, d, e), u1)
    requires Executed(u1, Instr(VMADM, sh, tl, d, e), u2)
    requires Executed(u2, Instr(VMADN, sl, th, d, e), u3)
    requires Executed(u3, Instr(VMADH, sh, th, out, e), u4)
    ensures forall k :: 0 <= k < 8 ==>
      var s := S32(Element(u0.regs[sh], k), Element(u0.regs[sl], k));
      var t := S32(Element(u0.regs[th], SourceElement(e, k)), Element(u0.regs[tl], SourceElement(e, k)));
      && Value(LaneAcc(u4.acc, 7 - k)) == (s * t) / 0x1_0000
      && Element(u4.regs[out], k) == ClampSigned((s * t) / 0x1_0000 / 0x1_0000)
  {
    hide Step, GetVte, Value, S32, ClampSigned, SourceElement;
    forall k | 0 <= k < 8
      ensures
        var s := S32(Element(u0.regs[sh], k), Element(u0.regs[sl], k));
        var t := S32(Element(u0.regs[th], SourceElement(e, k)), Element(u0.regs[tl], SourceElement(e, k)));
        && Value(LaneAcc(u4.acc, 7 - k)) == (s * t) / 0x1_0000
        && Element(u4.regs[out], k) == ClampSigned((s * t) / 0x1_0000 / 0x1_0000)
    {
      var i := 7 - k;
      var a := LaneOf(u0, i);
      var wsh, wsl := u0.regs[sh][i], u0.regs[sl][i];
      var wth, wtl := GetVte(u0.regs[th], e)[i], GetVte(u0.regs[tl], e)[i];
      assert LaneOf(u1, i) == After(VMUDL, a, wsl, wtl);
      assert LaneOf(u2, i) == After(VMADM, LaneOf(u1, i), wsh, wtl);
      assert LaneOf(u3, i) == After(VMADN, LaneOf(u2, i), wsl, wth);
      assert LaneOf(u4, i) == After(VMADH, LaneOf(u3, i), wsh, wth);
      FourMultipliesMakeProduct(a, wsh, wsl, wth, wtl);
      GetVteElement(u0.regs[th], e, k);
      GetVteElement(u0.regs[tl], e, k);
    }
  }
}
