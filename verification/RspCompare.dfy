/** Instruction pairs over low and high halves decide and compute on 32-bit values. */
module RspCompare {
  import opened RspLanes

  lemma S32Order(sh: u16, sl: u16, th: u16, tl: u16)
    ensures S32(sh, sl) < S32(th, tl) <==> S16(sh) < S16(th) || (S16(sh) == S16(th) && sl < tl)
    ensures S32(sh, sl) == S32(th, tl) <==> sh == th && sl == tl
  {}

  /** The high-half comparison after VSUBC on the low halves. */
  function Compared(op: Op, a: Lane, sh: u16, sl: u16, th: u16, tl: u16): Lane {
    After(op, After(VSUBC, a, sl, tl), sh, th)
  }

  /** VSUBC on low halves, then VLT, VGE, VEQ or VNE on high halves, decides the
      32-bit signed comparison. */
  lemma SubtractThenCompare(a: Lane, sh: u16, sl: u16, th: u16, tl: u16)
    ensures
      var s, t := S32(sh, sl), S32(th, tl);
      && (Compared(VLT, a, sh, sl, th, tl).vccL <==> s < t)
      && (Compared(VGE, a, sh, sl, th, tl).vccL <==> s >= t)
      && (Compared(VEQ, a, sh, sl, th, tl).vccL <==> s == t)
      && (Compared(VNE, a, sh, sl, th, tl).vccL <==> s != t)
  {
    S32Order(sh, sl, th, tl);
    S32Order(th, tl, sh, sl);
  }

  /** VSUBC, comparison, VMRG: the two destinations are the halves of the result. */
  function MergedHalves(op: Op, a: Lane, sh: u16, sl: u16, th: u16, tl: u16): int {
    var b := After(VSUBC, a, sl, tl);
    var hi := Dest(op, b, sh, th);
    var lo := Dest(VMRG, After(op, b, sh, th), sl, tl);
    S32(hi, lo)
  }

  /** The triple computes the 32-bit minimum with VLT and the maximum with VGE. */
  lemma MergeMakesMinMax(a: Lane, sh: u16, sl: u16, th: u16, tl: u16)
    ensures
      var s, t := S32(sh, sl), S32(th, tl);
      && MergedHalves(VLT, a, sh, sl, th, tl) == (if s < t then s else t)
      && MergedHalves(VGE, a, sh, sl, th, tl) == (if s >= t then s else t)
  {
    hide S32;
    SubtractThenCompare(a, sh, sl, th, tl);
  }

  lemma Digits(q: int, r: u16)
    ensures (q * 0x1_0000 + r) / 0x1_0000 == q && Lo16(q * 0x1_0000 + r) == r
  {}

  lemma Recombine(q: int, r: u16)
    ensures Lo16(q) * 0x1_0000 + r == (q * 0x1_0000 + r) % 0x1_0000_0000
  {
    var k := q / 0x1_0000;
    assert q == k * 0x1_0000 + Lo16(q);
    assert q * 0x1_0000 + r == k * 0x1_0000_0000 + (Lo16(q) * 0x1_0000 + r);
  }

  /** What a low-half and a high-half step leave, given the carry between them. */
  lemma CarryStep(h: int, carry: int, low: int, l: u16)
    requires low == carry * 0x1_0000 + l
    ensures Lo16(h + carry) * 0x1_0000 + l == (h * 0x1_0000 + low) % 0x1_0000_0000
    ensures (h * 0x1_0000 + low) / 0x1_0000 == h + carry
  {
    Recombine(h + carry, l);
    Digits(h + carry, l);
    assert h * 0x1_0000 + low == (h + carry) * 0x1_0000 + l;
  }

  /** VADDC then VADD leave the 32-bit sum modulo 2^32 in the accumulator's low
      registers; the destination of the second is the clamped upper half. */
  lemma AddChain(a: Lane, sh: u16, sl: u16, th: u16, tl: u16)
    ensures
      var sum := S32(sh, sl) + S32(th, tl);
      var a1 := After(VADDC, a, sl, tl);
      && After(VADD, a1, sh, th).acc.l * 0x1_0000 + a1.acc.l == sum % 0x1_0000_0000
      && Dest(VADD, a1, sh, th) == ClampSigned(sum / 0x1_0000)
  {
    hide ClampSigned;
    var carry := if sl + tl >= 0x1_0000 then 1 else 0;
    CarryStep(S16(sh) + S16(th), carry, sl + tl, Lo16(sl + tl));
    assert S32(sh, sl) + S32(th, tl) == (S16(sh) + S16(th)) * 0x1_0000 + (sl + tl);
  }

  /** VSUBC then VSUB, likewise for the difference. */
  lemma SubtractChain(a: Lane, sh: u16, sl: u16, th: u16, tl: u16)
    ensures
      var difference := S32(sh, sl) - S32(th, tl);
      var a1 := After(VSUBC, a, sl, tl);
      && After(VSUB, a1, sh, th).acc.l * 0x1_0000 + a1.acc.l == difference % 0x1_0000_0000
      && Dest(VSUB, a1, sh, th) == ClampSigned(difference / 0x1_0000)
  {
    hide ClampSigned;
    var borrow := if sl < tl then -1 else 0;
    CarryStep(S16(sh) - S16(th), borrow, sl - tl, Lo16(sl - tl));
    assert S32(sh, sl) - S32(th, tl) == (S16(sh) - S16(th)) * 0x1_0000 + (sl - tl);
  }

  // ----- VCH and VCL -----

  predicate SignsDiffer(x: u16, y: u16) { (x < 0x8000) != (y < 0x8000) }

  function Clipped(a: Lane, sh: u16, sl: u16, th: u16, tl: u16): Lane {
    After(VCL, After(VCH, a, sh, th), sl, tl)
  }

  /** VCH on high halves then VCL on low halves: VCC holds the two sides of a 32-bit
      clip test. The lower side reads false for S == T == 0, where S + T <= 0. */
  lemma ClipTest(a: Lane, sh: u16, sl: u16, th: u16, tl: u16)
    ensures
      var s, t := S32(sh, sl), S32(th, tl);
      var c := Clipped(a, sh, sl, th, tl);
      && (c.vccH <==> s >= t)
      && (c.vccL <==> s + t <= 0 && !(s == 0 && t == 0))
  {
    var b := After(VCH, a, sh, th);
    S32Order(sh, sl, th, tl);
    Zero32(sh, sl);
    Zero32(th, tl);
    HighSum(sh, sl, th, tl);
    Sign32(sh, sl);
    Sign32(th, tl);
    hide S32;
    if !SignsDiffer(sh, th) {
      assert b.vcoH <==> sh != th;
    }
  }

  lemma Zero32(h: u16, l: u16)
    ensures S32(h, l) == 0 <==> h == 0 && l == 0
  {}

  lemma Sign32(h: u16, l: u16)
    ensures S32(h, l) < 0 <==> h >= 0x8000
  {}

  /** How the sum of the high halves bounds the 32-bit sum. */
  lemma HighSum(sh: u16, sl: u16, th: u16, tl: u16)
    ensures var h := S16(sh) + S16(th);
      && S32(sh, sl) + S32(th, tl) == h * 0x1_0000 + sl + tl
      && (h > 0 ==> S32(sh, sl) + S32(th, tl) > 0)
      && (h < -1 ==> S32(sh, sl) + S32(th, tl) < 0)
      && (h == -1 ==> (S32(sh, sl) + S32(th, tl) <= 0 <==> sl + tl <= 0x1_0000))
  {}

  /** The value the clip selects. */
  function Clip(sh: u16, sl: u16, th: u16, tl: u16): int {
    var s, t := S32(sh, sl), S32(th, tl);
    if SignsDiffer(sh, th) then (if s + t <= 0 then -t else s) else (if s >= t then t else s)
  }

  /** VCL's destination is the low half of -T, T or S, as the clip dictates. */
  lemma ClipLowHalf(a: Lane, sh: u16, sl: u16, th: u16, tl: u16)
    ensures Dest(VCL, After(VCH, a, sh, th), sl, tl) == Lo16(Clip(sh, sl, th, tl))
  {
    ClipTest(a, sh, sl, th, tl);
    LowHalf(sh, sl);
    LowHalf(th, tl);
    NegatedLowHalf(th, tl);
    hide S32;
  }

  lemma LowHalf(h: u16, l: u16)
    ensures Lo16(S32(h, l)) == l
  {}

  lemma NegatedLowHalf(h: u16, l: u16)
    ensures Lo16(-S32(h, l)) == Lo16(0 - l)
    ensures Hi(-S32(h, l)) == Lo16(-S16(h) - (if l == 0 then 0 else 1))
  {
    if l == 0 {
      Digits(-S16(h), 0);
    } else {
      Digits(-S16(h) - 1, 0x1_0000 - l);
    }
  }

  lemma HighHalf(h: u16, l: u16)
    ensures Hi(S32(h, l)) == h
  {
    assert S32(h, l) / 0x1_0000 == S16(h);
  }

  lemma ClipHighSameSign(a: Lane, sh: u16, sl: u16, th: u16, tl: u16)
    requires !SignsDiffer(sh, th)
    ensures Dest(VCH, a, sh, th) == Hi(Clip(sh, sl, th, tl))
  {
    HighHalf(sh, sl);
    HighHalf(th, tl);
    S32Order(sh, sl, th, tl);
    hide S32, Hi;
  }

  lemma ClipHighSignsDiffer(a: Lane, sh: u16, sl: u16, th: u16, tl: u16)
    requires SignsDiffer(sh, th)
    ensures Dest(VCH, a, sh, th) == Hi(Clip(sh, sl, th, tl)) <==> !(S16(sh) + S16(th) < 0 && tl != 0)
  {
    HighHalf(sh, sl);
    NegatedLowHalf(th, tl);
    HighSum(sh, sl, th, tl);
    hide S32, Hi;
  }

  /** VCH chooses the high half before the low halves are known and negates without
      a borrow. Its destination is the high half of the clipped value unless the
      signs differ, the high halves sum below zero, and T has a nonzero low half. */
  lemma ClipHighHalf(a: Lane, sh: u16, sl: u16, th: u16, tl: u16)
    ensures Dest(VCH, a, sh, th) == Hi(Clip(sh, sl, th, tl)) <==>
      !(SignsDiffer(sh, th) && S16(sh) + S16(th) < 0 && tl != 0)
  {
    hide Step, Clip, S32, Hi;
    if SignsDiffer(sh, th) {
      ClipHighSignsDiffer(a, sh, sl, th, tl);
    } else {
      ClipHighSameSign(a, sh, sl, th, tl);
    }
  }
}
