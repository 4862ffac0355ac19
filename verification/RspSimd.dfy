/** The SSE2 bodies of VMADH, VMADM, VMADN and VABS: eight lanes at once, with
    carries detected by comparing a wrapping with a saturating addition. */
module RspSimd {
  import opened RspLanes

  type Vec = v: seq<u16> | |v| == 8 witness [0, 0, 0, 0, 0, 0, 0, 0]

  const ZERO: Vec := [0, 0, 0, 0, 0, 0, 0, 0]

  // ----- One lane of each intrinsic -----

  function MulLo1(a: u16, b: u16): u16 { Lo16(S16(a) * S16(b)) }

  function MulHi1(a: u16, b: u16): u16 { Lo16((S16(a) * S16(b)) / 0x1_0000) }

  function MulHiU1(a: u16, b: u16): u16 { Lo16((a * b) / 0x1_0000) }

  function Add1(a: u16, b: u16): u16 { Lo16(a + b) }

  function AddsU1(a: u16, b: u16): u16 { if a + b > 0xFFFF then 0xFFFF else a + b }

  function Sub1(a: u16, b: u16): u16 { Lo16(a - b) }

  function Subs1(a: u16, b: u16): u16 { ClampSigned(S16(a) - S16(b)) }

  function CmpEq1(a: u16, b: u16): u16 { if a == b then 0xFFFF else 0 }

  function Sra15(a: u16): u16 { if S16(a) < 0 then 0xFFFF else 0 }

  predicate IsMask1(m: u16) { m == 0 || m == 0xFFFF }

  function And1(a: u16, m: u16): u16
    requires IsMask1(m)
  {
    if m == 0 then 0 else a
  }

  function Xor1(a: u16, m: u16): u16
    requires IsMask1(m)
  {
    if m == 0 then a else 0xFFFF - a
  }

  // ----- Vectors -----

  function Map2(f: (u16, u16) -> u16, a: Vec, b: Vec): (r: Vec)
    ensures forall i :: 0 <= i < 8 ==> r[i] == f(a[i], b[i])
  {
    seq(8, i requires 0 <= i < 8 => f(a[i], b[i]))
  }

  function MulLo(a: Vec, b: Vec): Vec { Map2(MulLo1, a, b) }

  function MulHi(a: Vec, b: Vec): Vec { Map2(MulHi1, a, b) }

  function MulHiU(a: Vec, b: Vec): Vec { Map2(MulHiU1, a, b) }

  function Add(a: Vec, b: Vec): Vec { Map2(Add1, a, b) }

  function AddsU(a: Vec, b: Vec): Vec { Map2(AddsU1, a, b) }

  function Sub(a: Vec, b: Vec): Vec { Map2(Sub1, a, b) }

  function Subs(a: Vec, b: Vec): Vec { Map2(Subs1, a, b) }

  function CmpEq(a: Vec, b: Vec): Vec { Map2(CmpEq1, a, b) }

  function Sign(a: Vec): (r: Vec)
    ensures forall i :: 0 <= i < 8 ==> r[i] == Sra15(a[i])
  {
    seq(8, i requires 0 <= i < 8 => Sra15(a[i]))
  }

  predicate IsMask(m: Vec) { forall i :: 0 <= i < 8 ==> IsMask1(m[i]) }

  function And(a: Vec, m: Vec): (r: Vec)
    requires IsMask(m)
    ensures forall i :: 0 <= i < 8 ==> r[i] == And1(a[i], m[i])
  {
    seq(8, i requires 0 <= i < 8 => And1(a[i], m[i]))
  }

  function AndNot(m: Vec, a: Vec): (r: Vec)
    requires IsMask(m)
    ensures forall i :: 0 <= i < 8 ==> r[i] == if m[i] == 0 then a[i] else 0
  {
    seq(8, i requires 0 <= i < 8 => if m[i] == 0 then a[i] else 0)
  }

  function Xor(a: Vec, m: Vec): (r: Vec)
    requires IsMask(m)
    ensures forall i :: 0 <= i < 8 ==> r[i] == Xor1(a[i], m[i])
  {
    seq(8, i requires 0 <= i < 8 => Xor1(a[i], m[i]))
  }

  function Blend(a: Vec, b: Vec, m: Vec): (r: Vec)
    requires IsMask(m)
    ensures forall i :: 0 <= i < 8 ==> r[i] == if m[i] == 0 then a[i] else b[i]
  {
    seq(8, i requires 0 <= i < 8 => if m[i] == 0 then a[i] else b[i])
  }

  /** Four signed 32-bit lanes, low halves from `a` and high halves from `b`. */
  function UnpackLo(a: Vec, b: Vec): (r: seq<int>)
    ensures |r| == 4 && forall i :: 0 <= i < 4 ==> r[i] == S32(b[i], a[i])
  {
    seq(4, i requires 0 <= i < 4 => S32(b[i], a[i]))
  }

  function UnpackHi(a: Vec, b: Vec): (r: seq<int>)
    ensures |r| == 4 && forall i :: 0 <= i < 4 ==> r[i] == S32(b[i + 4], a[i + 4])
  {
    seq(4, i requires 0 <= i < 4 => S32(b[i + 4], a[i + 4]))
  }

  function Packs(lo: seq<int>, hi: seq<int>): (r: Vec)
    requires |lo| == 4 && |hi| == 4
    ensures forall i :: 0 <= i < 4 ==> r[i] == ClampSigned(lo[i]) && r[i + 4] == ClampSigned(hi[i])
  {
    seq(8, i requires 0 <= i < 8 => if i < 4 then ClampSigned(lo[i]) else ClampSigned(hi[i - 4]))
  }

  datatype VecAcc = VecAcc(h: Vec, m: Vec, l: Vec)

  function LaneAcc(a: VecAcc, i: nat): Acc
    requires i < 8
  {
    Acc(a.h[i], a.m[i], a.l[i])
  }

  // ----- The instruction bodies -----

  predicate Carries(a: u16, b: u16) { a as int + b as int > 0xFFFF }

  /** All ones in the lanes where `a + b` carries. */
  function Carry(a: Vec, b: Vec): (r: Vec)
    ensures IsMask(r) && forall i :: 0 <= i < 8 ==> r[i] == if Carries(a[i], b[i]) then 0xFFFF else 0
  {
    CmpEq(CmpEq(Add(a, b), AddsU(a, b)), ZERO)
  }

  /** Adds `hi:lo` to the accumulator, rippling carries through the three registers. */
  function AddWide(acc: VecAcc, lo: Vec, hi: Vec): VecAcc {
    var l := Add(acc.l, lo);
    var hi' := Sub(hi, Carry(acc.l, lo));
    var m := Add(acc.m, hi');
    var carry := Carry(acc.m, hi');
    VecAcc(Sub(Add(acc.h, Sign(hi')), carry), m, l)
  }

  function PackUpper(acc: VecAcc): Vec {
    Packs(UnpackLo(acc.m, acc.h), UnpackHi(acc.m, acc.h))
  }

  function VmadhSse(acc: VecAcc, vs: Vec, vte: Vec): (VecAcc, Vec) {
    var lo := MulLo(vs, vte);
    var hi := Sub(MulHi(vs, vte), Carry(acc.m, lo));
    var acc' := VecAcc(Add(acc.h, hi), Add(acc.m, lo), acc.l);
    (acc', PackUpper(acc'))
  }

  function VmadmSse(acc: VecAcc, vs: Vec, vte: Vec): (VecAcc, Vec) {
    var lo := MulLo(vs, vte);
    var hi := Sub(MulHiU(vs, vte), And(vte, Sign(vs)));
    var acc' := AddWide(acc, lo, hi);
    (acc', PackUpper(acc'))
  }

  function VmadnSse(acc: VecAcc, vs: Vec, vte: Vec): (VecAcc, Vec) {
    var lo := MulLo(vs, vte);
    var hi := Sub(MulHiU(vs, vte), And(vs, Sign(vte)));
    var acc' := AddWide(acc, lo, hi);
    var nhi := Sign(acc'.h);
    var smd := CmpEq(nhi, Sign(acc'.m));
    var cmask := And(smd, CmpEq(nhi, acc'.h));
    (acc', Blend(CmpEq(nhi, ZERO), acc'.l, cmask))
  }

  /** The new low accumulator register and the destination. */
  function VabsSse(vs: Vec, vte: Vec): (Vec, Vec) {
    var negative := Sign(vs);
    var temp := Xor(AndNot(CmpEq(vs, ZERO), vte), negative);
    (Sub(temp, negative), Subs(temp, negative))
  }

  // ----- Lane lemmas -----

  /** The signed-by-unsigned product from unsigned parts: low half, and high half
      after subtracting the unsigned factor where the signed one is negative. */
  lemma MixedProduct(s: u16, u: u16)
    ensures
      var p := S16(s) * u;
      && MulLo1(s, u) == Lo16(p) && MulLo1(u, s) == Lo16(p)
      && Sub1(MulHiU1(s, u), And1(u, Sra15(s))) == Lo16(p / 0x1_0000)
      && -0x8000 <= p / 0x1_0000 <= 0x7FFE
  {
    S16Bounds(s);
    hide Lo16, S16, Sub1, And1, Sra15, MulHiU1;
    MixedBounds(S16(s), u);
    MixedLow(S16(s), u);
    MixedHigh(s, u);
    assert S16(u) * S16(s) == S16(s) * S16(u);
  }

  lemma S16Bounds(s: u16)
    ensures -0x8000 <= S16(s) <= 0x7FFF
  {}

  lemma MixedBounds(x: int, u: int)
    requires -0x8000 <= x <= 0x7FFF && 0 <= u <= 0xFFFF
    ensures -0x8000 <= (x * u) / 0x1_0000 <= 0x7FFE
  {
    var p := x * u;
    if x >= 0 {
      MulMono(x, u, 0x7FFF, 0xFFFF);
      NotNegative(x, u);
      QuotientBounds(p);
    } else {
      MulMono(-x, u, 0x8000, 0xFFFF);
      NotNegative(-x, u);
      assert p == -((-x) * u);
      QuotientBounds(p);
    }
  }

  lemma NotNegative(x: int, y: int)
    requires x >= 0 && y >= 0
    ensures x * y >= 0
  {}

  lemma QuotientBounds(p: int)
    requires -0x8000 * 0xFFFF <= p <= 0x7FFF * 0xFFFF
    ensures -0x8000 <= p / 0x1_0000 <= 0x7FFE
  {}

  lemma MixedLow(x: int, u: u16)
    ensures Lo16(x * S16(u)) == Lo16(x * u)
  {
    if u >= 0x8000 {
      assert x * (u - 0x1_0000) == x * u + (-x) * 0x1_0000;
      LowOfShifted(x * u, -x);
    }
  }

  lemma MixedHigh(s: u16, u: u16)
    ensures Sub1(MulHiU1(s, u), And1(u, Sra15(s))) == Lo16((S16(s) * u) / 0x1_0000)
  {
    ProductBounds(s, u, 0xFFFF, 0xFFFF);
    NotNegative(s, u);
    SignCorrection(s, u);
    HighHalfDifference(S16(s) * u, s * u, And1(u, Sra15(s)));
  }

  lemma SignCorrection(s: u16, u: u16)
    ensures s * u == S16(s) * u + And1(u, Sra15(s)) * 0x1_0000
  {
    if s >= 0x8000 {
      assert (s - 0x1_0000) * u == s * u - 0x1_0000 * u;
    }
  }

  lemma HighHalfDifference(p: int, w: int, q: int)
    requires w == p + q * 0x1_0000 && 0 <= w <= 0xFFFF * 0xFFFF && 0 <= q <= 0xFFFF
    ensures Lo16(Lo16(w / 0x1_0000) - q) == Lo16(p / 0x1_0000)
  {
    assert w / 0x1_0000 == p / 0x1_0000 + q;
    assert 0 <= w / 0x1_0000 < 0x1_0000;
  }

  /** One lane of AddWide. */
  function AddWide1(a: Acc, lo: u16, hi: u16): Acc {
    var hi' := if Carries(a.l, lo) then Sub1(hi, 0xFFFF) else Sub1(hi, 0);
    var h := Add1(a.h, Sra15(hi'));
    Acc(Sub1(h, if Carries(a.m, hi') then 0xFFFF else 0), Add1(a.m, hi'), Add1(a.l, lo))
  }

  /** The rippled addition is the 48-bit addition. */
  lemma AddWideIsExact(a: Acc, p: int)
    requires -0x8000 <= p / 0x1_0000 <= 0x7FFE
    ensures AddWide1(a, Lo16(p), Lo16(p / 0x1_0000)) == SetAcc(Value(a) + p)
  {
    hide Lo16, S16, Add1, Sub1, Sra15, Carries, SetAcc;
    var hi := p / 0x1_0000;
    LowRest(p);
    var c := if Carries(a.l, Lo16(p)) then 1 else 0;
    CarryIn(hi, Carries(a.l, Lo16(p)));
    LowDigit(a.l, Lo16(p));
    MiddleDigit(a.m, hi + c);
    HighDigit(a.h, hi + c, Carries(a.m, Lo16(hi + c)));
    ThreeDigits(S16(a.h) + MiddleCarry(a.m, hi + c), Add1(a.m, Lo16(hi + c)), Add1(a.l, Lo16(p)));
  }

  lemma LowRest(p: int)
    ensures p == (p / 0x1_0000) * 0x1_0000 + Lo16(p)
  {}

  lemma CarryIn(hi: int, carry: bool)
    ensures Sub1(Lo16(hi), if carry then 0xFFFF else 0) == Lo16(hi + (if carry then 1 else 0))
  {}

  /** The carry out of the middle register when a signed value is added to it. */
  function MiddleCarry(m: u16, hi: int): int {
    (if Carries(m, Lo16(hi)) then 1 else 0) - (if hi < 0 then 1 else 0)
  }

  lemma LowDigit(l: u16, lo: u16)
    ensures l + lo == (if Carries(l, lo) then 0x1_0000 else 0) + Add1(l, lo)
  {}

  lemma LowOfSigned(hi: int)
    requires -0x8000 <= hi <= 0x7FFF
    ensures Lo16(hi) == if hi < 0 then hi + 0x1_0000 else hi
  {}

  lemma MiddleDigit(m: u16, hi: int)
    requires -0x8000 <= hi <= 0x7FFF
    ensures m + hi == MiddleCarry(m, hi) * 0x1_0000 + Add1(m, Lo16(hi))
  {
    LowOfSigned(hi);
    LowDigit(m, Lo16(hi));
  }

  lemma HighDigit(h: u16, hi: int, carry: bool)
    requires -0x8000 <= hi <= 0x7FFF
    ensures Sub1(Add1(h, Sra15(Lo16(hi))), if carry then 0xFFFF else 0) ==
      Lo16(S16(h) + (if carry then 1 else 0) - (if hi < 0 then 1 else 0))
  {}

  lemma ThreeDigits(h: int, m: u16, l: u16)
    ensures SetAcc(h * 0x1_0000_0000 + m * 0x1_0000 + l) == Acc(Lo16(h), m, l)
  {
    var v := h * 0x1_0000_0000 + m * 0x1_0000 + l;
    assert v / 0x1_0000 == h * 0x1_0000 + m;
    assert v / 0x1_0000_0000 == h;
  }

  lemma UpperOfValue(a: Acc)
    ensures Value(a) / 0x1_0000 == S32(a.h, a.m)
  {}

  // ----- Each body is its scalar loop, lane by lane -----

  lemma AddWideLane(acc: VecAcc, lo: Vec, hi: Vec, i: nat)
    requires i < 8
    ensures LaneAcc(AddWide(acc, lo, hi), i) == AddWide1(LaneAcc(acc, i), lo[i], hi[i])
  {}

  lemma PackUpperLane(acc: VecAcc, i: nat)
    requires i < 8
    ensures PackUpper(acc)[i] == ClampSigned(Value(LaneAcc(acc, i)) / 0x1_0000)
  {
    UpperOfValue(LaneAcc(acc, i));
    hide S32;
    if i >= 4 {
      var j := i - 4;
      assert PackUpper(acc)[j + 4] == ClampSigned(UnpackHi(acc.m, acc.h)[j]);
    }
  }

  lemma VmadmRefines(acc: VecAcc, vs: Vec, vte: Vec, i: nat, a: Lane)
    requires i < 8 && a.acc == LaneAcc(acc, i)
    ensures
      var (acc', vd) := VmadmSse(acc, vs, vte);
      Step(VMADM, a, vs[i], vte[i]) == (a.(acc := LaneAcc(acc', i)), vd[i])
  {
    hide AddWide, AddWide1, PackUpper, SetAcc, Value, ClampSigned, MulLo1, MulHiU1, Sub1, S16;
    var p := S16(vs[i]) * vte[i];
    var lo := MulLo(vs, vte);
    var hi := Sub(MulHiU(vs, vte), And(vte, Sign(vs)));
    MixedProduct(vs[i], vte[i]);
    AddWideLane(acc, lo, hi, i);
    AddWideIsExact(a.acc, p);
    PackUpperLane(AddWide(acc, lo, hi), i);
  }

  lemma VmadnRefines(acc: VecAcc, vs: Vec, vte: Vec, i: nat, a: Lane)
    requires i < 8 && a.acc == LaneAcc(acc, i)
    ensures
      var (acc', vd) := VmadnSse(acc, vs, vte);
      Step(VMADN, a, vs[i], vte[i]) == (a.(acc := LaneAcc(acc', i)), vd[i])
  {
    hide AddWide, AddWide1, SetAcc, Value, MulLo1, Sub1;
    var p := S16(vte[i]) * vs[i];
    var lo := MulLo(vs, vte);
    var hi := Sub(MulHiU(vs, vte), And(vs, Sign(vte)));
    MixedProduct(vte[i], vs[i]);
    assert MulHiU1(vs[i], vte[i]) == MulHiU1(vte[i], vs[i]);
    assert Product(VMADN, vs[i], vte[i]) == p;
    AddWideLane(acc, lo, hi, i);
    AddWideIsExact(a.acc, p);
    BlendIsClampLow(AddWide(acc, lo, hi), i);
  }

  lemma BlendIsClampLow(acc: VecAcc, i: nat)
    requires i < 8
    ensures
      var nhi := Sign(acc.h);
      var cmask := And(CmpEq(nhi, Sign(acc.m)), CmpEq(nhi, acc.h));
      Blend(CmpEq(nhi, ZERO), acc.l, cmask)[i] == ClampLow(LaneAcc(acc, i))
  {}

  lemma VmadhRefines(acc: VecAcc, vs: Vec, vte: Vec, i: nat, a: Lane)
    requires i < 8 && a.acc == LaneAcc(acc, i)
    ensures
      var (acc', vd) := VmadhSse(acc, vs, vte);
      Step(VMADH, a, vs[i], vte[i]) == (a.(acc := LaneAcc(acc', i)), vd[i])
  {
    hide PackUpper, SetAcc, ClampSigned, Value, S16, Carries;
    var p := S16(vs[i]) * S16(vte[i]);
    var (acc', vd) := VmadhSse(acc, vs, vte);
    VmadhLane(acc, vs, vte, i);
    HighAddIsExact(a.acc, p, LaneAcc(acc', i));
    Modulo48(Value(a.acc), p);
    PackUpperLane(acc', i);
    hide VmadhSse;
  }

  lemma VmadhLane(acc: VecAcc, vs: Vec, vte: Vec, i: nat)
    requires i < 8
    ensures
      var (acc', vd) := VmadhSse(acc, vs, vte);
      var p := S16(vs[i]) * S16(vte[i]);
      var carry := if Carries(acc.m[i], Lo16(p)) then 0xFFFF else 0;
      && LaneAcc(acc', i) == Acc(Add1(acc.h[i], Sub1(Lo16(p / 0x1_0000), carry)), Add1(acc.m[i], Lo16(p)), acc.l[i])
      && vd == PackUpper(acc')
  {
    hide PackUpper, S16, Lo16, Add1, Sub1, Carries;
  }

  lemma HighAddIsExact(a: Acc, p: int, r: Acc)
    requires
      var carry := if Carries(a.m, Lo16(p)) then 0xFFFF else 0;
      r == Acc(Add1(a.h, Sub1(Lo16(p / 0x1_0000), carry)), Add1(a.m, Lo16(p)), a.l)
    ensures r == SetAcc(Value(a) + p * 0x1_0000)
  {
    var c := if Carries(a.m, Lo16(p)) then 1 else 0;
    var hi := p / 0x1_0000;
    assert p == hi * 0x1_0000 + Lo16(p);
    LowDigit(a.m, Lo16(p));
    HighDigitOfProduct(a.h, hi, Carries(a.m, Lo16(p)));
    ThreeDigits(S16(a.h) + hi + c, r.m, r.l);
  }

  lemma HighDigitOfProduct(h: u16, hi: int, carry: bool)
    ensures Add1(h, Sub1(Lo16(hi), if carry then 0xFFFF else 0)) == Lo16(S16(h) + hi + (if carry then 1 else 0))
  {}

  lemma VabsRefines(vs: Vec, vte: Vec, i: nat, a: Lane)
    requires i < 8
    ensures
      var (l, vd) := VabsSse(vs, vte);
      Step(VABS, a, vs[i], vte[i]) == (WithLow(a, l[i]), vd[i])
  {}

  // ----- Element broadcast -----

  /** `_mm_shufflehi_epi16(_mm_shufflelo_epi16(v, s), s)`; `s` gives the source lane
      of each lane within its half. */
  function Shuffle(v: Vec, s: seq<nat>): Vec
    requires |s| == 4 && forall k :: 0 <= k < 4 ==> s[k] < 4
  {
    [v[s[0]], v[s[1]], v[s[2]], v[s[3]], v[4 + s[0]], v[4 + s[1]], v[4 + s[2]], v[4 + s[3]]]
  }

  /** The two-bit fields of the shuffle constants, lowest first. */
  function ShuffleFields(e: nat): (s: seq<nat>)
    requires 2 <= e < 8
    ensures |s| == 4 && forall k :: 0 <= k < 4 ==> s[k] < 4
  {
    match e
    case 2 => [1, 1, 3, 3]
    case 3 => [0, 0, 2, 2]
    case 4 => [3, 3, 3, 3]
    case 5 => [2, 2, 2, 2]
    case 6 => [1, 1, 1, 1]
    case _ => [0, 0, 0, 0]
  }

  /** The scalar broadcast: element `k` of the result is element `lanes[k]`. Element 0
      is the last array slot. */
  function Broadcast(v: Vec, lanes: seq<nat>): Vec
    requires |lanes| == 8 && forall k :: 0 <= k < 8 ==> lanes[k] < 8
  {
    [v[7 - lanes[7]], v[7 - lanes[6]], v[7 - lanes[5]], v[7 - lanes[4]],
     v[7 - lanes[3]], v[7 - lanes[2]], v[7 - lanes[1]], v[7 - lanes[0]]]
  }

  function BroadcastLanes(e: nat): (lanes: seq<nat>)
    requires 2 <= e < 8
    ensures |lanes| == 8 && forall k :: 0 <= k < 8 ==> lanes[k] < 8
  {
    match e
    case 2 => [0, 0, 2, 2, 4, 4, 6, 6]
    case 3 => [1, 1, 3, 3, 5, 5, 7, 7]
    case 4 => [0, 0, 0, 0, 4, 4, 4, 4]
    case 5 => [1, 1, 1, 1, 5, 5, 5, 5]
    case 6 => [2, 2, 2, 2, 6, 6, 6, 6]
    case _ => [3, 3, 3, 3, 7, 7, 7, 7]
  }

  function GetVte(v: Vec, e: nat): Vec
    requires e < 16
  {
    if e < 2 then v
    else if e < 8 then Broadcast(v, BroadcastLanes(e))
    else var x := v[7 - (e - 8)]; [x, x, x, x, x, x, x, x]
  }

  /** The shuffles are the scalar broadcasts. */
  lemma ShuffleIsBroadcast(v: Vec, e: nat)
    requires 2 <= e < 8
    ensures Shuffle(v, ShuffleFields(e)) == GetVte(v, e)
  {
    match e
    case 2 =>
    case 3 =>
    case 4 =>
    case 5 =>
    case 6 =>
    case _ =>
  }
}
