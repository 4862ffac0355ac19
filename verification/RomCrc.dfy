/** The table-driven CRC-32 of a ROM image against the bit-serial reflected CRC of
    section 8 of RFC 1952. */
module RomCrc {
  import opened Gf2
  import opened Gf2Top

  type Octet = bv8

  type Word = bv32

  const POLY: Word := 0xEDB8_8320

  /** One bit time of the reflected register. */
  function Step(c: Word): Word { if Odd(c) then Half(c) ^ POLY else Half(c) }

  predicate Odd(c: Word) { c & 1 == 1 }

  function Half(c: Word): Word { c >> 1 }

  function Plus(a: Word, b: Word): Word { a ^ b }

  function Steps(c: Word, k: nat): Word
    decreases k
  {
    if k == 0 then c else Steps(Step(c), k - 1)
  }

  function Halves(c: Word, k: nat): Word
    decreases k
  {
    if k == 0 then c else Halves(Half(c), k - 1)
  }

  /** Bit `k`, counted from the lowest. */
  predicate BitAt(c: Word, k: nat) { Odd(Halves(c, k)) }

  function Wide(o: Octet): Word { o as Word }

  // ----- Exclusive or, bit by bit -----

  lemma XorBits(a: Word, b: Word)
    ensures (a ^ b) >> 1 == (a >> 1) ^ (b >> 1)
    ensures (a ^ b) & 1 == (a & 1) ^ (b & 1)
  {}

  lemma XorHalf(a: Word, b: Word)
    ensures Half(Plus(a, b)) == Plus(Half(a), Half(b))
  {
    XorBits(a, b);
  }

  lemma XorOdd(a: Word, b: Word)
    ensures Odd(Plus(a, b)) <==> Odd(a) != Odd(b)
  {}

  lemma XorAssociates(a: Word, b: Word, c: Word)
    ensures Plus(Plus(a, b), c) == Plus(a, Plus(b, c))
  {
    AssociateBits(a, b, c);
  }

  lemma AssociateBits(a: Word, b: Word, c: Word)
    ensures (a ^ b) ^ c == a ^ (b ^ c)
  {}

  lemma XorCommutes(a: Word, b: Word)
    ensures Plus(a, b) == Plus(b, a)
  {}

  lemma XorCancels(a: Word)
    ensures Plus(a, a) == 0
  {}

  lemma XorZero(a: Word)
    ensures Plus(a, 0) == a
  {}

  lemma XorLaws(a: Word, b: Word, c: Word)
    ensures Plus(Plus(a, b), c) == Plus(a, Plus(b, c))
    ensures Plus(a, b) == Plus(b, a)
    ensures Plus(a, a) == 0 && Plus(a, 0) == a
  {
    hide Plus;
    XorAssociates(a, b, c);
    XorCommutes(a, b);
    XorCancels(a);
    XorZero(a);
  }

  lemma StepForm(c: Word)
    ensures Step(c) == if Odd(c) then Plus(Half(c), POLY) else Half(c)
  {}

  lemma StepLinear(a: Word, b: Word)
    ensures Step(Plus(a, b)) == Plus(Step(a), Step(b))
  {
    hide Step, Plus, Half, Odd;
    StepForm(a);
    StepForm(b);
    StepForm(Plus(a, b));
    XorHalf(a, b);
    XorOdd(a, b);
    var x, y := Half(a), Half(b);
    XorLaws(x, y, POLY);
    XorLaws(x, POLY, y);
    XorLaws(y, POLY, POLY);
    XorLaws(x, POLY, Plus(y, POLY));
    XorLaws(POLY, y, POLY);
    XorLaws(POLY, Plus(y, POLY), x);
    assert Plus(POLY, Plus(y, POLY)) == y by {
      XorLaws(POLY, POLY, y);
      XorLaws(y, 0, 0);
    }
  }

  lemma {:induction false} StepsLinear(a: Word, b: Word, k: nat)
    ensures Steps(Plus(a, b), k) == Plus(Steps(a, k), Steps(b, k))
    decreases k
  {
    hide Plus, Step;
    if k > 0 {
      StepLinear(a, b);
      StepsLinear(Step(a), Step(b), k - 1);
    }
  }

  lemma {:induction false} StepsLast(c: Word, k: nat)
    ensures Steps(c, k + 1) == Step(Steps(c, k))
    decreases k
  {
    hide Step;
    if k > 0 {
      StepsLast(Step(c), k - 1);
    }
  }

  // ----- The table form -----

  function LowOctet(c: Word): Octet { (c & 0xFF) as Octet }

  function High(c: Word): Word { c & 0xFFFF_FF00 }

  function Shift8(c: Word): Word { c >> 8 }

  function XorOctet(a: Octet, b: Octet): Octet { a ^ b }

  /** One byte through the table, where `T[x]` is `Steps(x, 8)`. */
  function TableStep(c: Word, o: Octet): Word {
    Plus(Shift8(c), Steps(Wide(XorOctet(LowOctet(c), o)), 8))
  }

  lemma SplitOctet(c: Word, o: Octet)
    ensures c ^ (o as Word) == (c & 0xFFFF_FF00) ^ ((((c & 0xFF) as Octet) ^ o) as Word)
  {}

  lemma {:induction false} HalvesLast(c: Word, k: nat)
    ensures Halves(c, k + 1) == Half(Halves(c, k))
    decreases k
  {
    hide Half;
    if k > 0 {
      HalvesLast(Half(c), k - 1);
    }
  }

  /** While no one bit falls out, steps are shifts. */
  lemma {:induction false} StepsEven(c: Word, k: nat)
    requires forall j :: 0 <= j < k ==> !BitAt(c, j)
    ensures Steps(c, k) == Halves(c, k)
    decreases k
  {
    if k > 0 {
      hide Half, Odd;
      assert BitAt(c, 0) == Odd(c);
      forall j | 0 <= j < k - 1 ensures !BitAt(Half(c), j) {
        assert BitAt(Half(c), j) == BitAt(c, j + 1);
      }
      StepsEven(Half(c), k - 1);
    }
  }

  /** `k` as a shift count. */
  function Count(k: nat): Word
    requires k <= 8
  {
    match k
    case 0 => 0 case 1 => 1 case 2 => 2 case 3 => 3 case 4 => 4
    case 5 => 5 case 6 => 6 case 7 => 7 case _ => 8
  }

  function Down(c: Word, k: nat): Word
    requires k <= 8
  {
    c >> Count(k)
  }

  lemma ShiftsCompose(c: Word, k: nat)
    requires k < 8
    ensures c >> Count(k + 1) == (c >> Count(k)) >> 1
  {
    if k == 0 {} else if k == 1 {} else if k == 2 {} else if k == 3 {} else if k == 4 {} else if k == 5 {} else if k == 6 {} else {}
  }

  lemma DownStep(c: Word, k: nat)
    requires k < 8
    ensures Down(c, k + 1) == Half(Down(c, k))
  {
    ShiftsCompose(c, k);
    hide Count;
  }

  lemma DownNone(c: Word)
    ensures Down(c, 0) == c
  {}

  lemma {:induction false} HalvesDown(c: Word, k: nat)
    requires k <= 8
    ensures Halves(c, k) == Down(c, k)
  {
    hide Half, Down;
    if k > 0 {
      HalvesDown(c, k - 1);
      HalvesLast(c, k - 1);
      DownStep(c, k - 1);
    } else {
      DownNone(c);
    }
  }

  lemma HighIsEven(c: Word, k: nat)
    requires k < 8
    ensures !Odd(Down(High(c), k))
  {
    if k == 0 {} else if k == 1 {} else if k == 2 {} else if k == 3 {} else if k == 4 {} else if k == 5 {} else if k == 6 {} else {}
  }

  lemma HighDown(c: Word)
    ensures Down(High(c), 8) == Shift8(c)
  {}

  /** Eight steps of the upper 24 bits are a shift. */
  lemma StepsHigh(c: Word)
    ensures Steps(High(c), 8) == Shift8(c)
  {
    hide High, Shift8, Step, Steps, Down, Odd, Halves;
    forall j | 0 <= j < 8 ensures !BitAt(High(c), j) {
      HighIsEven(c, j);
      HalvesDown(High(c), j);
    }
    StepsEven(High(c), 8);
    HalvesDown(High(c), 8);
    HighDown(c);
  }

  /** A table step is eight bit times on the register with the byte added. */
  lemma TableStepIsSteps(c: Word, o: Octet)
    ensures TableStep(c, o) == Steps(Plus(c, Wide(o)), 8)
  {
    SplitOctet(c, o);
    var x := Wide(XorOctet(LowOctet(c), o));
    assert Plus(c, Wide(o)) == Plus(High(c), x);
    hide Plus, Wide, Steps, Shift8, High;
    StepsLinear(High(c), x, 8);
    StepsHigh(c);
  }

  // ----- The bit-serial form -----

  function One(b: bool): Word { if b then 1 else 0 }

  /** One message bit enters at the bottom of the reflected register. */
  function SerialStep(c: Word, b: bool): Word { Step(Plus(c, One(b))) }

  function Serial(c: Word, m: Bits): Word {
    if m == [] then c else SerialStep(Serial(c, m[..|m| - 1]), m[|m| - 1])
  }

  /** The low `k` bits, the lowest first. */
  function LowBits(w: Word, k: nat): (m: Bits)
    ensures |m| == k
  {
    seq(k, i requires 0 <= i < k => BitAt(w, i))
  }

  function OctetBits(o: Octet): (m: Bits)
    ensures |m| == 8
  {
    LowBits(Wide(o), 8)
  }

  function BufferBits(buf: seq<Octet>): (m: Bits)
    ensures |m| == 8 * |buf|
  {
    if buf == [] then [] else BufferBits(buf[..|buf| - 1]) + OctetBits(buf[|buf| - 1])
  }

  lemma StepOfOne(b: bool)
    ensures Step(One(b)) == if b then POLY else 0
  {
    assert Odd(1) && Half(1) == 0 && !Odd(0) && Half(0) == 0;
    StepForm(One(b));
    XorZero(POLY);
    XorCommutes(0, POLY);
    hide Step, Plus, Half, Odd;
  }

  lemma SplitLowest(w: Word)
    ensures Step(w) == Plus(Step(One(Odd(w))), Half(w))
  {
    hide Step, Plus, Half, Odd, One;
    StepForm(w);
    StepOfOne(Odd(w));
    XorCommutes(Half(w), POLY);
    XorCommutes(0, Half(w));
    XorZero(Half(w));
  }

  /** The lowest bit taken out of a word leaves its half after one step. */
  lemma StepTakesBit(c: Word, w: Word)
    ensures Step(Plus(c, w)) == Plus(SerialStep(c, Odd(w)), Half(w))
  {
    hide Plus, Step, Half, Odd, One;
    StepLinear(c, w);
    StepLinear(c, One(Odd(w)));
    SplitLowest(w);
    XorLaws(Step(c), Step(One(Odd(w))), Half(w));
  }

  /** Steps on a word added at once are the word's bits added one by one. */
  lemma {:induction false} StepsAreSerial(c: Word, w: Word, k: nat)
    ensures Steps(Plus(c, w), k) == Plus(Serial(c, LowBits(w, k)), Halves(w, k))
    decreases k
  {
    if k == 0 {
      assert LowBits(w, 0) == [];
    } else {
      StepsAreSerial(c, w, k - 1);
      assert LowBits(w, k)[..k - 1] == LowBits(w, k - 1);
      StepsLast(Plus(c, w), k - 1);
      StepTakesBit(Serial(c, LowBits(w, k - 1)), Halves(w, k - 1));
      HalvesLast(w, k - 1);
    }
    hide Plus, Step, Half, Odd, Halves, Steps, One;
  }

  lemma WideIsShort(o: Octet)
    ensures Down(Wide(o), 8) == 0
  {}

  lemma TableStepIsSerial(c: Word, o: Octet)
    ensures TableStep(c, o) == Serial(c, OctetBits(o))
  {
    TableStepIsSteps(c, o);
    StepsAreSerial(c, Wide(o), 8);
    HalvesDown(Wide(o), 8);
    WideIsShort(o);
    XorLaws(Serial(c, OctetBits(o)), 0, 0);
    hide TableStep, Steps, Plus, Wide, Down, Halves, Serial;
  }

  lemma {:induction false} SerialSplit(c: Word, a: Bits, b: Bits)
    ensures Serial(c, a + b) == Serial(Serial(c, a), b)
    decreases |b|
  {
    hide SerialStep;
    if b == [] {
      assert a + b == a;
    } else {
      assert (a + b)[..|a + b| - 1] == a + b[..|b| - 1];
      SerialSplit(c, a, b[..|b| - 1]);
    }
  }

  lemma {:induction false} BuffersJoin(a: seq<Octet>, b: seq<Octet>)
    ensures BufferBits(a + b) == BufferBits(a) + BufferBits(b)
    decreases |b|
  {
    hide OctetBits;
    if b == [] {
      assert a + b == a;
    } else {
      assert (a + b)[..|a + b| - 1] == a + b[..|b| - 1];
      BuffersJoin(a, b[..|b| - 1]);
    }
  }

  function Not(c: Word): Word { !c }

  lemma NotTwice(c: Word)
    ensures Not(Not(c)) == c
  {}

  /** The CRC-32 of a buffer continuing from `c`. */
  function Crc(c: Word, buf: seq<Octet>): Word { Not(Serial(Not(c), BufferBits(buf))) }

  /** Checksumming in two calls is checksumming the whole. */
  lemma CrcContinues(c: Word, a: seq<Octet>, b: seq<Octet>)
    ensures Crc(Crc(c, a), b) == Crc(c, a + b)
  {
    hide Not, Serial, BufferBits;
    BuffersJoin(a, b);
    SerialSplit(Not(c), BufferBits(a), BufferBits(b));
    NotTwice(Serial(Not(c), BufferBits(a)));
  }
}
