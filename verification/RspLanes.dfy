/** One lane of the RSP vector unit. Registers are 16-bit patterns; the 48-bit
    accumulator of a lane is split over three of them. */
module RspLanes {

  type u16 = n: nat | n < 0x1_0000

  /** The signed reading of a 16-bit pattern. */
  function S16(x: u16): int { if x < 0x8000 then x else x - 0x1_0000 }

  /** The low 16 bits of any integer. */
  function Lo16(v: int): u16 { v % 0x1_0000 }

  datatype Acc = Acc(h: u16, m: u16, l: u16)

  /** `get_rsp_accumulator`: the sign-extended 48-bit value. */
  function Value(a: Acc): int {
    S16(a.h) * 0x1_0000_0000 + a.m * 0x1_0000 + a.l
  }

  /** `set_rsp_accumulator`: the low 48 bits of a value. */
  function SetAcc(v: int): Acc {
    Acc(Lo16(v / 0x1_0000_0000), Lo16(v / 0x1_0000), Lo16(v))
  }

  predicate Fits48(v: int) { -0x8000_0000_0000 <= v < 0x8000_0000_0000 }

  lemma SetThenGet(v: int)
    requires Fits48(v)
    ensures Value(SetAcc(v)) == v
  {
    var hi := v / 0x1_0000_0000;
    assert -0x8000 <= hi < 0x8000;
    assert v / 0x1_0000 == hi * 0x1_0000 + Lo16(v / 0x1_0000);
  }

  lemma GetThenSet(a: Acc)
    ensures SetAcc(Value(a)) == a && Fits48(Value(a))
  {
    var v := Value(a);
    assert v / 0x1_0000 == S16(a.h) * 0x1_0000 + a.m;
    assert v / 0x1_0000_0000 == S16(a.h);
  }

  function Clamp(v: int, lo: int, hi: int): int { if v < lo then lo else if v > hi then hi else v }

  function ClampSigned(v: int): u16 { Lo16(Clamp(v, -0x8000, 0x7FFF)) }

  predicate IsSignExtension(high: u16, low: u16) {
    if high == 0 then low < 0x8000 else high == 0xFFFF && low >= 0x8000
  }

  /** The low register, or its bound when the accumulator leaves 32 bits. */
  function ClampLow(a: Acc): u16 {
    if IsSignExtension(a.h, a.m) then a.l else if S16(a.h) < 0 then 0 else 0xFFFF
  }

  // ----- Instructions -----

  datatype Op =
    | VMUDL | VMUDM | VMUDN | VMUDH
    | VMADL | VMADM | VMADN | VMADH
    | VABS | VADD | VADDC | VSUB | VSUBC
    | VLT | VGE | VEQ | VNE | VMRG | VCH | VCL

  /** Flag registers hold all ones or all zeros per lane; here one truth value. */
  datatype Lane = Lane(acc: Acc, vccH: bool, vccL: bool, vcoH: bool, vcoL: bool, vce: bool)

  /** `vs` times `vte`, each read as the multiply wants it. */
  function Product(op: Op, vs: u16, vte: u16): int {
    match op
    case VMUDL => vs * vte
    case VMADL => vs * vte
    case VMUDM => S16(vs) * vte
    case VMADM => S16(vs) * vte
    case VMUDN => vs * S16(vte)
    case VMADN => vs * S16(vte)
    case _ => S16(vs) * S16(vte)
  }

  function MulResult(a: Acc, low: bool): u16 {
    if low then ClampLow(a) else ClampSigned(Value(a) / 0x1_0000)
  }

  function WithLow(a: Lane, l: u16): Lane { a.(acc := a.acc.(l := l)) }

  function Select(a: Lane, choose: bool, vs: u16, vte: u16): (Lane, u16) {
    var r := if choose then vs else vte;
    (WithLow(a, r).(vccL := choose, vccH := false, vcoH := false, vcoL := false), r)
  }

  /** A lane after an instruction, and what it writes to the destination lane. */
  function Step(op: Op, a: Lane, vs: u16, vte: u16): (Lane, u16) {
    match op
    case VMUDL =>
      var acc := SetAcc(Product(op, vs, vte) / 0x1_0000);
      (a.(acc := acc), MulResult(acc, true))
    case VMUDM =>
      var acc := SetAcc(Product(op, vs, vte));
      (a.(acc := acc), ClampSigned(Product(op, vs, vte) / 0x1_0000))
    case VMUDN =>
      var acc := SetAcc(Product(op, vs, vte));
      (a.(acc := acc), MulResult(acc, true))
    case VMUDH =>
      (a.(acc := SetAcc(Product(op, vs, vte) * 0x1_0000)), ClampSigned(Product(op, vs, vte)))
    case VMADL =>
      var acc := SetAcc(Value(a.acc) + Product(op, vs, vte) / 0x1_0000);
      (a.(acc := acc), MulResult(acc, true))
    case VMADM =>
      var acc := SetAcc(Value(a.acc) + Product(op, vs, vte));
      (a.(acc := acc), MulResult(acc, false))
    case VMADN =>
      var acc := SetAcc(Value(a.acc) + Product(op, vs, vte));
      (a.(acc := acc), MulResult(acc, true))
    case VMADH =>
      var acc := SetAcc(Value(a.acc) + (Product(op, vs, vte) % 0x1_0000_0000) * 0x1_0000);
      (a.(acc := acc), MulResult(acc, false))
    case VABS =>
      if S16(vs) < 0 then
        if vte == 0x8000 then (WithLow(a, 0x8000), 0x7FFF) else (WithLow(a, Lo16(-S16(vte))), Lo16(-S16(vte)))
      else if vs == 0 then (WithLow(a, 0), 0)
      else (WithLow(a, vte), vte)
    case VADD =>
      var r := S16(vs) + S16(vte) + (if a.vcoL then 1 else 0);
      (WithLow(a, Lo16(r)).(vcoL := false, vcoH := false), ClampSigned(r))
    case VADDC =>
      var r := vs + vte;
      (WithLow(a, Lo16(r)).(vcoL := r >= 0x1_0000, vcoH := false), Lo16(r))
    case VSUB =>
      var r := S16(vs) - S16(vte) - (if a.vcoL then 1 else 0);
      (WithLow(a, Lo16(r)).(vcoL := false, vcoH := false), ClampSigned(r))
    case VSUBC =>
      var r := vs - vte;
      (WithLow(a, Lo16(r)).(vcoL := r < 0, vcoH := r != 0), Lo16(r))
    case VLT => Select(a, (vs == vte && a.vcoH && a.vcoL) || S16(vs) < S16(vte), vs, vte)
    case VGE => Select(a, (vs == vte && !(a.vcoL && a.vcoH)) || S16(vs) > S16(vte), vs, vte)
    case VEQ => Select(a, !a.vcoH && vs == vte, vs, vte)
    case VNE => Select(a, a.vcoH || vs != vte, vs, vte)
    case VMRG =>
      var r := if a.vccL then vs else vte;
      (WithLow(a, r).(vcoH := false, vcoL := false), r)
    case VCH =>
      if (vs < 0x8000) != (vte < 0x8000) then
        var r := S16(Lo16(S16(vs) + S16(vte)));
        var d := if r <= 0 then Lo16(-S16(vte)) else vs;
        (WithLow(a, d).(vccL := r <= 0, vccH := S16(vte) < 0, vcoL := true,
                        vcoH := r != 0 && vs != 0xFFFF - vte, vce := r == -1), d)
      else
        var r := S16(Lo16(S16(vs) - S16(vte)));
        var d := if r >= 0 then vte else vs;
        (WithLow(a, d).(vccL := S16(vte) < 0, vccH := r >= 0, vcoL := false,
                        vcoH := r != 0 && vs != 0xFFFF - vte, vce := false), d)
    case VCL =>
      var sum := Lo16(vs + vte);
      var overflow := vs + vte != sum;
      var vccL := if a.vcoL && !a.vcoH then (if a.vce then sum == 0 || !overflow else sum == 0 && !overflow) else a.vccL;
      var vccH := if !a.vcoL && !a.vcoH then vs >= vte else a.vccH;
      var d := if a.vcoL then (if vccL then Lo16(0 - vte) else vs) else (if vccH then vte else vs);
      (WithLow(a, d).(vccL := vccL, vccH := vccH, vcoL := false, vcoH := false, vce := false), d)
  }

  // ----- 32-bit values over two registers -----

  function S32(h: u16, l: u16): int { S16(h) * 0x1_0000 + l }

  function Hi(v: int): u16 { Lo16(v / 0x1_0000) }

  function After(op: Op, a: Lane, vs: u16, vte: u16): Lane { Step(op, a, vs, vte).0 }

  function Dest(op: Op, a: Lane, vs: u16, vte: u16): u16 { Step(op, a, vs, vte).1 }

  /** The lane after VMUDL, VMADM, VMADN and VMADH on the halves of two values. */
  function Multiplied(a: Lane, sh: u16, sl: u16, th: u16, tl: u16): Lane {
    After(VMADH, After(VMADN, After(VMADM, After(VMUDL, a, sl, tl), sh, tl), sl, th), sh, th)
  }

  lemma ProductOfHalves(sh: u16, sl: u16, th: u16, tl: u16)
    ensures S32(sh, sl) * S32(th, tl) ==
      (S16(sh) * S16(th)) * 0x1_0000_0000 + (S16(sh) * tl + sl * S16(th)) * 0x1_0000 + sl * tl
  {}

  lemma ProductBounds(x: int, y: int, m: int, n: int)
    requires -m <= x <= m && -n <= y <= n
    ensures -(m * n) <= x * y <= m * n
  {
    if x >= 0 {
      MulMono(x, y, m, n);
    } else {
      MulMono(-x, -y, m, n);
      assert (-x) * (-y) == x * y;
    }
  }

  lemma MulMono(x: int, y: int, m: int, n: int)
    requires 0 <= x <= m && -n <= y <= n
    ensures -(m * n) <= x * y <= m * n
  {
    assert x * n <= m * n;
    assert x * y <= x * n;
    assert x * (-n) <= x * y;
  }

  /** Adding the product's low 32 bits, shifted, is adding the product modulo 2^48. */
  lemma Modulo48(v: int, p: int)
    ensures SetAcc(v + (p % 0x1_0000_0000) * 0x1_0000) == SetAcc(v + p * 0x1_0000)
  {
    var q := p / 0x1_0000_0000;
    assert p * 0x1_0000 == (p % 0x1_0000_0000) * 0x1_0000 + q * 0x1_0000_0000_0000;
    SetAccModulo(v + (p % 0x1_0000_0000) * 0x1_0000, q);
  }

  lemma SetAccModulo(v: int, q: int)
    ensures SetAcc(v + q * 0x1_0000_0000_0000) == SetAcc(v)
  {
    var w := v + q * 0x1_0000_0000_0000;
    assert w / 0x1_0000_0000 == v / 0x1_0000_0000 + q * 0x1_0000;
    assert w / 0x1_0000 == v / 0x1_0000 + q * 0x1_0000_0000;
    LowOfShifted(v / 0x1_0000_0000, q);
    LowOfShifted(v / 0x1_0000, q * 0x1_0000);
    LowOfShifted(v, q * 0x1_0000_0000);
  }

  lemma LowOfShifted(x: int, q: int)
    ensures Lo16(x + q * 0x1_0000) == Lo16(x)
  {}

  /** What each multiply of the sequence adds, when nothing wraps. */
  lemma MultiplyAdds(op: Op, a: Lane, vs: u16, vte: u16)
    requires op == VMADM || op == VMADN
    requires Fits48(Value(a.acc) + Product(op, vs, vte))
    ensures Value(After(op, a, vs, vte).acc) == Value(a.acc) + Product(op, vs, vte)
  {
    hide Product, Value, SetAcc;
    SetThenGet(Value(a.acc) + Product(op, vs, vte));
  }

  lemma MultiplyHighAdds(a: Lane, vs: u16, vte: u16)
    requires Fits48(Value(a.acc) + S16(vs) * S16(vte) * 0x1_0000)
    ensures Value(After(VMADH, a, vs, vte).acc) == Value(a.acc) + S16(vs) * S16(vte) * 0x1_0000
  {
    hide Value, SetAcc, S16;
    Modulo48(Value(a.acc), S16(vs) * S16(vte));
    SetThenGet(Value(a.acc) + S16(vs) * S16(vte) * 0x1_0000);
  }

  lemma MultiplyLowSets(a: Lane, vs: u16, vte: u16)
    ensures Value(After(VMUDL, a, vs, vte).acc) == (vs * vte) / 0x1_0000
    ensures 0 <= (vs * vte) / 0x1_0000 < 0x1_0000
  {
    ProductBounds(vs, vte, 0xFFFF, 0xFFFF);
    LowProduct(vs, vte);
    SetThenGet((vs * vte) / 0x1_0000);
  }

  lemma LowProduct(x: nat, y: nat)
    requires x * y <= 0xFFFF * 0xFFFF
    ensures 0 <= x * y && 0 <= (x * y) / 0x1_0000 < 0x1_0000
  {
    assert 0 <= x * y;
  }

  lemma FixedPoint(hh: int, mid: int, ll: int)
    ensures (hh * 0x1_0000_0000 + mid * 0x1_0000 + ll) / 0x1_0000 == hh * 0x1_0000 + mid + ll / 0x1_0000
  {}

  /** The four multiplies leave the exact fixed-point product: each adds its partial
      product without wrapping, and the last destination is the clamped upper part. */
  lemma FourMultipliesMakeProduct(a: Lane, sh: u16, sl: u16, th: u16, tl: u16)
    ensures
      var a1 := After(VMUDL, a, sl, tl);
      var a2 := After(VMADM, a1, sh, tl);
      var a3 := After(VMADN, a2, sl, th);
      var a4 := After(VMADH, a3, sh, th);
      && Value(a1.acc) == (sl * tl) / 0x1_0000
      && Value(a2.acc) == Value(a1.acc) + S16(sh) * tl
      && Value(a3.acc) == Value(a2.acc) + sl * S16(th)
      && Value(a4.acc) == Value(a3.acc) + S16(sh) * S16(th) * 0x1_0000
      && Dest(VMADH, a3, sh, th) == ClampSigned(((S32(sh, sl) * S32(th, tl)) / 0x1_0000) / 0x1_0000)
    ensures Value(Multiplied(a, sh, sl, th, tl).acc) == (S32(sh, sl) * S32(th, tl)) / 0x1_0000
  {
    hide Step, Value;
    ProductBounds(S16(sh), tl, 0x8000, 0xFFFF);
    ProductBounds(sl, S16(th), 0xFFFF, 0x8000);
    ProductBounds(S16(sh), S16(th), 0x8000, 0x8000);
    var a1 := After(VMUDL, a, sl, tl);
    MultiplyLowSets(a, sl, tl);
    var a2 := After(VMADM, a1, sh, tl);
    MultiplyAdds(VMADM, a1, sh, tl);
    var a3 := After(VMADN, a2, sl, th);
    MultiplyAdds(VMADN, a2, sl, th);
    MultiplyHighAdds(a3, sh, th);
    ProductOfHalves(sh, sl, th, tl);
    FixedPoint(S16(sh) * S16(th), S16(sh) * tl + sl * S16(th), sl * tl);
    HighDestination(a3, sh, th);
  }

  lemma HighDestination(a: Lane, vs: u16, vte: u16)
    ensures Dest(VMADH, a, vs, vte) == ClampSigned(Value(After(VMADH, a, vs, vte).acc) / 0x1_0000)
  {
    hide Value, SetAcc, ClampSigned, S16;
  }

  /** The destination of the last multiply is the upper part, clamped; a further
      VMADN with a zero operand yields the matching low part. Together they are the
      product saturated to 32 bits. */
  lemma SaturatedProduct(a: Lane, sh: u16, sl: u16, th: u16, tl: u16, zero: u16)
    ensures
      var p := (S32(sh, sl) * S32(th, tl)) / 0x1_0000;
      var a3 := After(VMADN, After(VMADM, After(VMUDL, a, sl, tl), sh, tl), sl, th);
      var hi := Dest(VMADH, a3, sh, th);
      var lo := Dest(VMADN, Multiplied(a, sh, sl, th, tl), zero, 0);
      && hi == ClampSigned(p / 0x1_0000)
      && S32(hi, lo) == Clamp(p, -0x8000_0000, 0x7FFF_FFFF)
  {
    hide Value, SetAcc, Product, ClampSigned, ClampLow;
    FourMultipliesMakeProduct(a, sh, sl, th, tl);
    var b := Multiplied(a, sh, sl, th, tl);
    AddZero(b, zero);
    SplitSaturates(b.acc);
  }

  lemma AddZero(b: Lane, zero: u16)
    ensures After(VMADN, b, zero, 0) == b && Dest(VMADN, b, zero, 0) == ClampLow(b.acc)
  {
    hide ClampLow;
    assert Product(VMADN, zero, 0) == 0;
    GetThenSet(b.acc);
  }

  /** High part clamped and low part clamped make the 32-bit saturation. */
  lemma SplitSaturates(acc: Acc)
    ensures S32(ClampSigned(Value(acc) / 0x1_0000), ClampLow(acc)) == Clamp(Value(acc), -0x8000_0000, 0x7FFF_FFFF)
  {
    assert Value(acc) / 0x1_0000 == S16(acc.h) * 0x1_0000 + acc.m;
  }
}
