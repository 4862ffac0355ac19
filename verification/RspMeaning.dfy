/** What single instructions mean as numbers: the multiplies on the 48-bit accumulator, VABS,
    what the selecting instructions leave alone, and the element each lane's operand is. */
module RspMeaning {
  import opened RspLanes
  import opened RspSimd

  // ----- Operand elements -----

  /** Element `k` of a register; element 0 is the last array slot. */
  function Element(v: Vec, k: nat): u16
    requires k < 8
  {
    v[7 - k]
  }

  /** The element an element specifier gives to lane `k`: its own, that of its pair, that
      of its four, or one for all. */
  function SourceElement(e: nat, k: nat): (r: nat)
    requires e < 16 && k < 8
    ensures r < 8
  {
    if e < 2 then k
    else if e < 4 then 2 * (k / 2) + e % 2
    else if e < 8 then 4 * (k / 4) + e % 4
    else e - 8
  }

  lemma GetVteElement(v: Vec, e: nat, k: nat)
    requires e < 16 && k < 8
    ensures Element(GetVte(v, e), k) == Element(v, SourceElement(e, k))
  {
    if 2 <= e < 8 {
      BroadcastElement(v, BroadcastLanes(e), k);
      LanesAreSources(e, k);
    }
  }

  lemma BroadcastElement(v: Vec, lanes: seq<nat>, k: nat)
    requires |lanes| == 8 && (forall j :: 0 <= j < 8 ==> lanes[j] < 8) && k < 8
    ensures Broadcast(v, lanes)[7 - k] == v[7 - lanes[k]]
  {}

  lemma LanesAreSources(e: nat, k: nat)
    requires 2 <= e < 8 && k < 8
    ensures BroadcastLanes(e)[k] == SourceElement(e, k)
  {
    if e == 2 {} else if e == 3 {} else if e == 4 {} else if e == 5 {} else if e == 6 {} else {}
  }

  // ----- Multiplies -----

  predicate IsMultiply(op: Op) { op in {VMUDL, VMUDM, VMUDN, VMUDH, VMADL, VMADM, VMADN, VMADH} }

  predicate Accumulates(op: Op) { op in {VMADL, VMADM, VMADN, VMADH} }

  /** What a multiply adds, in units of the accumulator's lowest bit: for L the upper
      half of the unsigned product, for M signed by unsigned, for N unsigned by signed,
      for H the signed product 16 bits up. */
  function Term(op: Op, vs: u16, vte: u16): int {
    match op
    case VMUDL => vs * vte / 0x1_0000
    case VMADL => vs * vte / 0x1_0000
    case VMUDM => S16(vs) * vte
    case VMADM => S16(vs) * vte
    case VMUDN => vs * S16(vte)
    case VMADN => vs * S16(vte)
    case _ => S16(vs) * S16(vte) * 0x1_0000
  }

  /** The 48-bit value congruent to `v`. */
  function Wrap48(v: int): int { (v + 0x8000_0000_0000) % 0x1_0000_0000_0000 - 0x8000_0000_0000 }

  lemma SetWraps(v: int)
    ensures Value(SetAcc(v)) == Wrap48(v)
  {
    hide SetAcc, Value;
    var q := (v + 0x8000_0000_0000) / 0x1_0000_0000_0000;
    assert v == Wrap48(v) + q * 0x1_0000_0000_0000;
    SetAccModulo(Wrap48(v), q);
    SetThenGet(Wrap48(v));
  }

  lemma TermIsProduct(op: Op, vs: u16, vte: u16)
    requires IsMultiply(op)
    ensures Term(op, vs, vte) ==
      if op in {VMUDL, VMADL} then Product(op, vs, vte) / 0x1_0000
      else if op in {VMUDH, VMADH} then Product(op, vs, vte) * 0x1_0000
      else Product(op, vs, vte)
  {
    hide S16;
  }

  /** Every multiply leaves old accumulator (or zero) plus its term, modulo 2^48. */
  lemma MultiplyAccumulates(op: Op, a: Lane, vs: u16, vte: u16)
    requires IsMultiply(op)
    ensures Value(After(op, a, vs, vte).acc) ==
      Wrap48((if Accumulates(op) then Value(a.acc) else 0) + Term(op, vs, vte))
    ensures After(op, a, vs, vte) == a.(acc := After(op, a, vs, vte).acc)
  {
    hide Value, SetAcc, S16, Wrap48, Product, Term, ClampSigned, ClampLow;
    var v := (if Accumulates(op) then Value(a.acc) else 0) + Term(op, vs, vte);
    TermIsProduct(op, vs, vte);
    SetWraps(v);
    if op == VMADH {
      Modulo48(Value(a.acc), Product(op, vs, vte));
    }
  }

  /** The low 16 bits of a value in 32 bits, else their bound. */
  function LowPart(v: int): u16 {
    if v < -0x8000_0000 then 0 else if v > 0x7FFF_FFFF then 0xFFFF else v % 0x1_0000
  }

  lemma LowDestination(acc: Acc)
    ensures ClampLow(acc) == LowPart(Value(acc))
  {
    var upper := S16(acc.h) * 0x1_0000 + acc.m;
    assert Value(acc) == upper * 0x1_0000 + acc.l;
  }

  lemma SignedClamp(v: int)
    ensures S16(ClampSigned(v)) == Clamp(v, -0x8000, 0x7FFF)
  {}

  lemma TermBounds(op: Op, vs: u16, vte: u16)
    requires op == VMUDM || op == VMUDH
    ensures Fits48(Product(op, vs, vte)) && Fits48(Term(op, vs, vte))
  {
    S16Bounds(vs);
    S16Bounds(vte);
    hide S16;
    ProductBounds(S16(vs), vte, 0x8000, 0xFFFF);
    ProductBounds(S16(vs), S16(vte), 0x8000, 0x8000);
  }

  lemma Wrap48Fits(v: int)
    requires Fits48(v)
    ensures Wrap48(v) == v
  {}

  /** M and H write the upper 32 bits clamped, L and N the lower part of the value
      clamped to 32 bits. */
  lemma MultiplyWrites(op: Op, a: Lane, vs: u16, vte: u16)
    requires IsMultiply(op)
    ensures
      var v := Value(After(op, a, vs, vte).acc);
      if op in {VMUDM, VMUDH, VMADM, VMADH} then S16(Dest(op, a, vs, vte)) == Clamp(v / 0x1_0000, -0x8000, 0x7FFF)
      else Dest(op, a, vs, vte) == LowPart(v)
  {
    hide Value, SetAcc, S16, Wrap48, Product, Term, ClampSigned, ClampLow, LowPart;
    var acc := After(op, a, vs, vte).acc;
    LowDestination(acc);
    SignedClamp(Value(acc) / 0x1_0000);
    if op == VMUDM || op == VMUDH {
      MultiplyAccumulates(op, a, vs, vte);
      TermIsProduct(op, vs, vte);
      TermBounds(op, vs, vte);
      Wrap48Fits(Term(op, vs, vte));
    }
  }

  // ----- Other instructions -----

  function SignOf(x: int): int { if x < 0 then -1 else if x == 0 then 0 else 1 }

  /** VABS gives the second operand the sign of the first; only the destination
      saturates. */
  lemma VabsIsSignTimes(a: Lane, vs: u16, vte: u16)
    ensures S16(Dest(VABS, a, vs, vte)) == Clamp(SignOf(S16(vs)) * S16(vte), -0x8000, 0x7FFF)
    ensures After(VABS, a, vs, vte) == a.(acc := a.acc.(l := Lo16(SignOf(S16(vs)) * S16(vte))))
  {}

  /** Everything else writes one accumulator register. The additions and selections
      leave no carry, VADDC the carry out, VSUBC the borrow and whether the operands
      differ. */
  lemma FlagsAfter(op: Op, a: Lane, vs: u16, vte: u16)
    ensures
      var b := After(op, a, vs, vte);
      && (!IsMultiply(op) ==> b.acc == a.acc.(l := b.acc.l))
      && (op in {VADD, VSUB, VLT, VGE, VEQ, VNE, VMRG, VCL} ==> !b.vcoL && !b.vcoH)
      && (op == VADDC ==> (b.vcoL <==> vs + vte > 0xFFFF) && !b.vcoH)
      && (op == VSUBC ==> (b.vcoL <==> vs < vte) && (b.vcoH <==> vs != vte))
      && (op in {VLT, VGE, VEQ, VNE} ==> !b.vccH)
      && (op in {VADD, VADDC, VSUB, VSUBC, VMRG} ==> b.vccL == a.vccL && b.vccH == a.vccH)
      && (op !in {VCH, VCL} ==> b.vce == a.vce)
      && (op == VCL ==> !b.vce)
      && (!IsMultiply(op) && op !in {VABS, VADD, VSUB} ==> b.acc.l == Dest(op, a, vs, vte))
  {
    hide Product, Value, S16, Lo16, SetAcc, MulResult, ClampSigned;
  }
}
