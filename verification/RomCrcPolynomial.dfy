/** What the CRC-32 register holds: a remainder modulo the CRC-32 polynomial, and the
    changes it must detect. */
module RomCrcPolynomial {
  import opened Gf2
  import opened Gf2Top
  import opened RomCrc

  predicate Coefficient(c: Word, i: nat)
    requires i < 32
  {
    BitAt(c, 31 - i)
  }

  /** The reflected register: bit `k` is the coefficient of x^(31-k). */
  function PolyOf(c: Word): (p: Poly)
    ensures Below(p, 32)
  {
    set i: nat | i < 32 && Coefficient(c, i)
  }

  const P: Poly := {32, 26, 23, 22, 16, 12, 11, 10, 8, 7, 5, 4, 2, 1, 0}

  lemma PIsDivisor()
    ensures Divisor(P, 32)
  {}

  // ----- Bits of words -----

  lemma HalfBit(c: Word, k: nat)
    ensures BitAt(Half(c), k) == BitAt(c, k + 1)
    ensures BitAt(c, 0) == Odd(c)
  {}

  lemma {:induction false} PlusBit(a: Word, b: Word, k: nat)
    ensures BitAt(Plus(a, b), k) <==> BitAt(a, k) != BitAt(b, k)
    decreases k
  {
    hide Plus, Half, Odd;
    if k == 0 {
      XorOdd(a, b);
    } else {
      XorHalf(a, b);
      PlusBit(Half(a), Half(b), k - 1);
    }
  }

  lemma {:induction false} HalvesAdd(c: Word, i: nat, j: nat)
    ensures Halves(c, i + j) == Halves(Halves(c, i), j)
    decreases i
  {
    hide Half;
    if i > 0 {
      HalvesAdd(Half(c), i - 1, j);
    }
  }

  /** The word with its lowest `8 * q` bits shifted out. */
  function Octets(c: Word, q: nat): Word {
    if q == 0 then c else Shift8(Octets(c, q - 1))
  }

  lemma FourOctets(c: Word)
    ensures (((c >> 8) >> 8) >> 8) >> 8 == 0
  {}

  lemma FourShifts(c: Word)
    ensures Shift8(Shift8(Shift8(Shift8(c)))) == 0
  {
    FourOctets(c);
  }

  lemma NoOctets(c: Word)
    ensures Octets(c, 4) == 0
  {
    hide Shift8;
    FourShifts(c);
    assert Octets(c, 1) == Shift8(Octets(c, 0)) == Shift8(c);
    assert Octets(c, 2) == Shift8(Octets(c, 1));
    assert Octets(c, 3) == Shift8(Octets(c, 2));
    assert Octets(c, 4) == Shift8(Octets(c, 3));
  }

  lemma ShiftEight(c: Word)
    ensures Halves(c, 8) == Shift8(c)
  {
    HalvesDown(c, 8);
    hide Halves;
  }

  lemma {:induction false} OctetsAre(c: Word, q: nat)
    ensures Halves(c, 8 * q) == Octets(c, q)
  {
    if q == 0 {
      assert Halves(c, 0) == c;
    } else {
      hide Halves, Shift8;
      OctetsAre(c, q - 1);
      HalvesAdd(c, 8 * (q - 1), 8);
      ShiftEight(Octets(c, q - 1));
    }
  }

  /** Any bit read out with constant shifts. */
  lemma BitInOctet(c: Word, q: nat, i: nat)
    requires q < 4 && i < 8
    ensures BitAt(c, 8 * q + i) == Odd(Down(Octets(c, q), i))
  {
    OctetsAre(c, q);
    HalvesAdd(c, 8 * q, i);
    HalvesDown(Octets(c, q), i);
    hide Halves, Octets, Down;
  }

  lemma NoBit32(c: Word)
    ensures !BitAt(c, 32) && Halves(c, 32) == 0
  {
    OctetsAre(c, 4);
    NoOctets(c);
    hide Halves, Octets;
    assert !Odd(0);
  }

  // ----- The constants -----

  lemma PolyConstant(i: nat)
    requires i < 32
    ensures Coefficient(POLY, i) <==> i in P
  {
    var k := 31 - i;
    var q, j := k / 8, k % 8;
    BitInOctet(POLY, q, j);
    PolyOctets();
    hide Octets;
    if q == 0 {
      PolyOctet(0xEDB8_8320, j);
    } else if q == 1 {
      PolyOctet(0xED_B883, j);
    } else if q == 2 {
      PolyOctet(0xEDB8, j);
    } else {
      PolyOctet(0xED, j);
    }
  }

  lemma PolyOctets()
    ensures Octets(POLY, 0) == 0xEDB8_8320 && Octets(POLY, 1) == 0xED_B883
    ensures Octets(POLY, 2) == 0xEDB8 && Octets(POLY, 3) == 0xED
  {}

  lemma PolyOctet(c: Word, j: nat)
    requires c in {0xEDB8_8320, 0xED_B883, 0xEDB8, 0xED} && j < 8
    ensures Odd(Down(c, j)) <==>
      (if c == 0xEDB8_8320 then 31 - j else if c == 0xED_B883 then 23 - j else if c == 0xEDB8 then 15 - j else 7 - j) in P
  {
    if j == 0 {} else if j == 1 {} else if j == 2 {} else if j == 3 {} else if j == 4 {} else if j == 5 {} else if j == 6 {} else {}
  }

  /** The constant, reflected, is the standard polynomial less its leading term. */
  lemma PolyIsStandard()
    ensures PolyOf(POLY) + {32} == P
  {
    forall i: nat ensures i in PolyOf(POLY) + {32} <==> i in P {
      if i < 32 {
        PolyConstant(i);
      }
    }
  }

  lemma AllOnes(k: nat)
    requires k < 32
    ensures BitAt(Not(0), k)
  {
    BitInOctet(Not(0), k / 8, k % 8);
    OnesOctets();
    hide Octets;
    OnesOctet(Octets(Not(0), k / 8), k % 8);
  }

  lemma OnesOctets()
    ensures Octets(Not(0), 0) == 0xFFFF_FFFF && Octets(Not(0), 1) == 0xFF_FFFF
    ensures Octets(Not(0), 2) == 0xFFFF && Octets(Not(0), 3) == 0xFF
  {}

  lemma OnesOctet(c: Word, j: nat)
    requires c in {0xFFFF_FFFF, 0xFF_FFFF, 0xFFFF, 0xFF} && j < 8
    ensures Odd(Down(c, j))
  {
    if j == 0 {} else if j == 1 {} else if j == 2 {} else if j == 3 {} else if j == 4 {} else if j == 5 {} else if j == 6 {} else {}
  }

  // ----- The register divides -----

  lemma PolyOfPlus(a: Word, b: Word)
    ensures PolyOf(Plus(a, b)) == Add(PolyOf(a), PolyOf(b))
  {
    hide BitAt, Plus;
    forall i: nat ensures i in PolyOf(Plus(a, b)) <==> i in Add(PolyOf(a), PolyOf(b)) {
      if i < 32 {
        PlusBit(a, b, 31 - i);
      }
    }
  }

  lemma {:induction false} NoBits(k: nat)
    ensures !BitAt(0, k)
  {
    if k > 0 {
      NoBits(k - 1);
      assert Half(0) == 0;
      HalfBit(0, k - 1);
    } else {
      assert !Odd(0);
    }
  }

  lemma PolyOfOne(b: bool)
    ensures PolyOf(One(b)) == Top(32, b)
  {
    assert Half(1) == 0 && Odd(1);
    HalfBit(1, 0);
    hide BitAt, Half, Odd;
    forall i: nat ensures i in PolyOf(One(b)) <==> i in Top(32, b) {
      if i < 32 {
        NoBits(31 - i);
        if i < 31 {
          NoBits(30 - i);
          HalfBit(1, 30 - i);
        }
      }
    }
  }

  lemma PolyOfHalf(c: Word)
    ensures Shift(PolyOf(c)) == PolyOf(Half(c)) + (if Odd(c) then {32} else {})
  {
    hide BitAt, Half, Odd;
    NoBit32(c);
    HalfBit(c, 0);
    forall i: nat ensures i in Shift(PolyOf(c)) <==> i in PolyOf(Half(c)) + (if Odd(c) then {32} else {}) {
      if 0 < i < 33 {
        assert i - 1 in PolyOf(c) <==> BitAt(c, 32 - i);
        if i < 32 {
          HalfBit(c, 31 - i);
        }
      } else if i == 0 {
        HalfBit(c, 31);
      }
    }
  }

  lemma StepIsFeed(c: Word)
    ensures PolyOf(Step(c)) == Feed(P, 32, PolyOf(c), false)
  {
    PolyOfHalf(c);
    StepForm(c);
    PolyOfPlus(Half(c), POLY);
    PolyIsStandard();
    hide Step, Half, Odd, Plus, PolyOf, Shift;
    FeedForm(P, 32, PolyOf(c));
    var h, q := PolyOf(Half(c)), PolyOf(POLY);
    assert Odd(c) <==> 32 in Shift(PolyOf(c));
    hide P;
    WithoutTop(h, q);
    AddLaws(h, {}, {});
  }

  lemma WithoutTop(h: Poly, q: Poly)
    requires Below(h, 32) && Below(q, 32)
    ensures Add(h + {32}, q + {32}) == Add(h, q)
  {}

  lemma SerialStepIsTop(c: Word, b: bool)
    ensures PolyOf(SerialStep(c, b)) == FeedTop(P, 32, PolyOf(c), b)
  {
    PolyOfPlus(c, One(b));
    PolyOfOne(b);
    StepIsFeed(Plus(c, One(b)));
    hide PolyOf, Step, Plus, One, Feed, P;
  }

  /** The bit-serial register is division with the bits entering at the top. */
  lemma {:induction false} SerialIsRunTop(c: Word, m: Bits)
    ensures PolyOf(Serial(c, m)) == RunTop(P, 32, PolyOf(c), m)
  {
    hide PolyOf, SerialStep, FeedTop, P;
    if m != [] {
      SerialIsRunTop(c, m[..|m| - 1]);
      SerialStepIsTop(Serial(c, m[..|m| - 1]), m[|m| - 1]);
    }
  }

  // ----- Main results -----

  function Ones(k: nat): (b: Bits)
    ensures |b| == k
  {
    seq(k, _ => true)
  }

  lemma PresetIsOnes()
    ensures PolyOf(Not(0)) == Val(Ones(32))
  {
    hide BitAt, Not;
    forall i: nat ensures i in PolyOf(Not(0)) <==> i in Val(Ones(32)) {
      ValAt(Ones(32), i);
      if i < 32 {
        AllOnes(31 - i);
      }
    }
  }

  /** The message a frame check sequence divides: 32 zeros appended, the first 32 bits
      complemented. */
  function FrameMessage(buf: seq<Octet>): Bits {
    Xor(BufferBits(buf) + Zeros(32), Ones(32) + Zeros(8 * |buf|))
  }

  /** The complement of the CRC-32 of a buffer is the one remainder of that message
      modulo the CRC-32 polynomial. */
  lemma CrcIsFrameCheck(buf: seq<Octet>, r: Poly)
    ensures IsRemainder(P, 32, FrameMessage(buf), r) <==> r == PolyOf(Not(Crc(0, buf)))
  {
    PIsDivisor();
    NotTwice(Serial(Not(0), BufferBits(buf)));
    SerialIsRunTop(Not(0), BufferBits(buf));
    PresetIsOnes();
    hide PolyOf, Serial, BufferBits, P, Not, Run, RunTop, Val;
    PresetIsAdded(P, 32, Ones(32), BufferBits(buf));
    RunIsTheRemainder(P, 32, FrameMessage(buf), r);
  }

  // ----- Detection -----

  lemma SameHalves(a: Word, b: Word)
    requires Half(a) == Half(b) && (Odd(a) <==> Odd(b))
    ensures a == b
  {}

  /** Words with the same bits are the same. */
  lemma {:induction false} SameBits(a: Word, b: Word, k: nat)
    requires k <= 32 && forall j :: 0 <= j < 32 ==> (BitAt(a, j) <==> BitAt(b, j))
    ensures Halves(a, k) == Halves(b, k)
    decreases 32 - k
  {
    hide Half, Odd, Halves;
    if k == 32 {
      NoBit32(a);
      NoBit32(b);
    } else {
      SameBits(a, b, k + 1);
      HalvesLast(a, k);
      HalvesLast(b, k);
      assert BitAt(a, k) <==> BitAt(b, k);
      SameHalves(Halves(a, k), Halves(b, k));
    }
  }

  lemma WideOctet(o: Octet, p: Octet)
    requires Wide(o) == Wide(p)
    ensures o == p
  {}

  lemma OctetEnds(o: Octet, j: nat)
    requires 8 <= j < 32
    ensures !BitAt(Wide(o), j)
  {
    HalvesAdd(Wide(o), 8, j - 8);
    HalvesDown(Wide(o), 8);
    WideIsShort(o);
    hide Wide, Down, Halves;
    NoBits(j - 8);
    assert BitAt(0, j - 8) == Odd(Halves(0, j - 8));
  }

  lemma OctetIsItsBits(o: Octet, p: Octet)
    requires OctetBits(o) == OctetBits(p)
    ensures o == p
  {
    hide BitAt, Wide;
    forall j | 0 <= j < 32 ensures BitAt(Wide(o), j) <==> BitAt(Wide(p), j) {
      if j < 8 {
        assert OctetBits(o)[j] == OctetBits(p)[j];
      } else {
        OctetEnds(o, j);
        OctetEnds(p, j);
      }
    }
    SameBits(Wide(o), Wide(p), 0);
    WideOctet(o, p);
  }

  lemma {:induction false} BufferIsItsBits(a: seq<Octet>, b: seq<Octet>)
    requires |a| == |b| && BufferBits(a) == BufferBits(b)
    ensures a == b
    decreases |a|
  {
    hide OctetBits;
    if a != [] {
      var k := |a| - 1;
      var x, y := BufferBits(a[..k]), BufferBits(b[..k]);
      assert BufferBits(a)[..8 * k] == x && BufferBits(b)[..8 * k] == y;
      assert BufferBits(a)[8 * k..] == OctetBits(a[k]) && BufferBits(b)[8 * k..] == OctetBits(b[k]);
      BufferIsItsBits(a[..k], b[..k]);
      OctetIsItsBits(a[k], b[k]);
      assert a == a[..k] + [a[k]] && b == b[..k] + [b[k]];
    }
  }

  /** Buffers that differ only within four adjacent bytes have different CRC-32s. */
  lemma ChangedBytesAreDetected(c: Word, head: seq<Octet>, v: seq<Octet>, w: seq<Octet>, tail: seq<Octet>)
    requires |v| == |w| <= 4
    ensures Crc(c, head + v + tail) == Crc(c, head + w + tail) <==> v == w
  {
    PIsDivisor();
    hide PolyOf, Serial, P, RunTop, Not, BufferBits;
    var r := Not(c);
    BuffersJoin(head + v, tail);
    BuffersJoin(head, v);
    BuffersJoin(head + w, tail);
    BuffersJoin(head, w);
    if Crc(c, head + v + tail) == Crc(c, head + w + tail) {
      var m, n := BufferBits(head + v + tail), BufferBits(head + w + tail);
      NotTwice(Serial(r, m));
      NotTwice(Serial(r, n));
      SerialIsRunTop(r, m);
      SerialIsRunTop(r, n);
      TopBurstIsDetected(P, 32, PolyOf(r), BufferBits(head), BufferBits(v), BufferBits(w), BufferBits(tail));
      BufferIsItsBits(v, w);
    }
  }
}
