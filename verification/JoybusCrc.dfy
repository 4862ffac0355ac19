/** The controller-pak data CRC: an 8-bit shift register over 32 bytes and eight
    zero bits. */
module JoybusCrc {
  import opened Gf2

  /** x^8 + x^7 + x^2 + 1 */
  const P: Poly := {8, 7, 2, 0}

  type Octet = bv8

  function Mask(j: nat): Octet
    requires j < 8
  {
    match j
    case 0 => 0x01 case 1 => 0x02 case 2 => 0x04 case 3 => 0x08
    case 4 => 0x10 case 5 => 0x20 case 6 => 0x40 case _ => 0x80
  }

  predicate BitAt(v: Octet, j: nat)
    requires j < 8
  {
    v & Mask(j) != 0
  }

  /** An octet as a polynomial: bit `j` is the coefficient of x^j. */
  function PolyOf(v: Octet): (p: Poly)
    ensures Below(p, 8)
  {
    set j: nat | j < 8 && BitAt(v, j)
  }

  function OctetBits(v: Octet): (b: Bits)
    ensures |b| == 8
  {
    seq(8, i requires 0 <= i < 8 => BitAt(v, 7 - i))
  }

  function BlockBits(data: seq<Octet>): (b: Bits)
    ensures |b| == 8 * |data|
  {
    if data == [] then [] else BlockBits(data[..|data| - 1]) + OctetBits(data[|data| - 1])
  }

  /** One pass of the inner loop. */
  function Shifted(crc: Octet, bit: bool): Octet {
    var xorVal: Octet := if crc & 0x80 != 0 then 0x85 else 0x00;
    ((crc << 1) | (if bit then 0x01 else 0x00)) ^ xorVal
  }

  lemma ShiftedBit(crc: Octet, bit: bool, j: nat)
    requires j < 8
    ensures BitAt(Shifted(crc, bit), j) <==>
      ((if j == 0 then bit else BitAt(crc, j - 1)) != (BitAt(crc, 7) && j in {0, 2, 7}))
  {
    if j == 0 {} else if j == 1 {} else if j == 2 {} else if j == 3 {} else if j == 4 {} else if j == 5 {} else if j == 6 {} else {}
  }

  /** The loop body is one step of division by `P`. */
  lemma ShiftedIsFeed(crc: Octet, bit: bool)
    ensures PolyOf(Shifted(crc, bit)) == Feed(P, 8, PolyOf(crc), bit)
  {
    hide BitAt, Shifted;
    forall j: nat ensures j in PolyOf(Shifted(crc, bit)) <==> j in Feed(P, 8, PolyOf(crc), bit) {
      if j < 8 {
        ShiftedBit(crc, bit, j);
      }
    }
  }

  lemma PIsDivisor()
    ensures Divisor(P, 8)
  {}

  // ----- Octets and blocks as bit strings -----

  lemma OctetIsItsBits(v: Octet)
    ensures Val(OctetBits(v)) == PolyOf(v)
  {
    forall i: nat ensures i in Val(OctetBits(v)) <==> i in PolyOf(v) {
      ValAt(OctetBits(v), i);
    }
  }

  lemma SameOctet(v: Octet, w: Octet)
    requires OctetBits(v) == OctetBits(w)
    ensures v == w
  {
    forall j | 0 <= j < 8 ensures BitAt(v, j) == BitAt(w, j) {
      assert OctetBits(v)[7 - j] == OctetBits(w)[7 - j];
    }
    assert BitAt(v, 0) == BitAt(w, 0) && BitAt(v, 1) == BitAt(w, 1) && BitAt(v, 2) == BitAt(w, 2) && BitAt(v, 3) == BitAt(w, 3);
    assert BitAt(v, 4) == BitAt(w, 4) && BitAt(v, 5) == BitAt(w, 5) && BitAt(v, 6) == BitAt(w, 6) && BitAt(v, 7) == BitAt(w, 7);
  }

  lemma {:induction false} BlocksJoin(a: seq<Octet>, b: seq<Octet>)
    ensures BlockBits(a + b) == BlockBits(a) + BlockBits(b)
    decreases |b|
  {
    hide OctetBits;
    if b == [] {
      assert a + b == a;
    } else {
      assert (a + b)[..|a + b| - 1] == a + b[..|b| - 1];
      BlocksJoin(a, b[..|b| - 1]);
    }
  }

  lemma BlockAround(a: seq<Octet>, k: nat)
    requires k < |a|
    ensures BlockBits(a) == BlockBits(a[..k]) + OctetBits(a[k]) + BlockBits(a[k + 1..])
  {
    OneOctet(a[k]);
    hide *;
    BlocksJoin(a[..k], [a[k]]);
    BlocksJoin(a[..k] + [a[k]], a[k + 1..]);
    Around(a, k);
  }

  lemma OneOctet(v: Octet)
    ensures BlockBits([v]) == OctetBits(v)
  {
    assert BlockBits([v]) == BlockBits([]) + OctetBits(v);
  }

  lemma Around(a: seq<Octet>, k: nat)
    requires k < |a|
    ensures a[..k] + [a[k]] + a[k + 1..] == a
  {}

  // ----- The CRC of a block -----

  function Crc(data: seq<Octet>): Poly { Run(P, 8, {}, BlockBits(data) + Zeros(8)) }

  /** The CRC is the one remainder of M(x) * x^8 modulo `P`. */
  lemma CrcIsTheRemainder(data: seq<Octet>, r: Poly)
    ensures IsRemainder(P, 8, BlockBits(data) + Zeros(8), r) <==> r == Crc(data)
  {
    PIsDivisor();
    RunIsTheRemainder(P, 8, BlockBits(data) + Zeros(8), r);
  }

  /** With a byte in place of the trailing zeros the remainder is zero exactly when the
      byte is the CRC. */
  lemma CrcAppended(data: seq<Octet>, v: Octet)
    ensures Run(P, 8, {}, BlockBits(data + [v])) == {} <==> PolyOf(v) == Crc(data)
  {
    PIsDivisor();
    hide OctetBits;
    assert (data + [v])[..|data|] == data;
    RemainderAppended(P, 8, BlockBits(data), OctetBits(v));
    OctetIsItsBits(v);
  }

  /** Blocks that agree but for one byte have equal CRCs only if they are equal. */
  lemma ChangedByteIsDetected(a: seq<Octet>, b: seq<Octet>, k: nat)
    requires |a| == |b| && k < |a| && a[..k] == b[..k] && a[k + 1..] == b[k + 1..]
    ensures Crc(a) == Crc(b) <==> a == b
  {
    PIsDivisor();
    hide OctetBits, Run, BlockBits;
    BlockAround(a, k);
    BlockAround(b, k);
    var head, tail := BlockBits(a[..k]), BlockBits(a[k + 1..]) + Zeros(8);
    Reassociate(head, OctetBits(a[k]), BlockBits(a[k + 1..]), Zeros(8));
    Reassociate(head, OctetBits(b[k]), BlockBits(a[k + 1..]), Zeros(8));
    BurstIsDetected(P, 8, {}, head, OctetBits(a[k]), OctetBits(b[k]), tail);
    if Crc(a) == Crc(b) {
      SameOctet(a[k], b[k]);
      Around(a, k);
      Around(b, k);
    }
  }

  lemma Reassociate(a: Bits, b: Bits, c: Bits, d: Bits)
    ensures a + b + c + d == a + b + (c + d)
  {}

  /** The inner loop: eight bits of a byte, or eight zeros past the end. */
  method FeedOctet(crc: Octet, data: array<Octet>, i: nat) returns (r: Octet)
    requires i <= 32 <= data.Length
    ensures PolyOf(r) == Run(P, 8, PolyOf(crc), if i < 32 then OctetBits(data[i]) else Zeros(8))
  {
    ghost var word := if i < 32 then OctetBits(data[i]) else Zeros(8);
    r := crc;
    hide BitAt, Shifted, Feed;
    var j := 8;
    while j > 0
      invariant 0 <= j <= 8 && PolyOf(r) == Run(P, 8, PolyOf(crc), word[..8 - j])
    {
      j := j - 1;
      var bit := i < 32 && BitAt(data[i], j);
      ShiftedIsFeed(r, bit);
      r := Shifted(r, bit);
      assert word[..8 - j][..7 - j] == word[..7 - j];
    }
    assert word[..8] == word;
  }

  /** The controller-pak CRC; `i` runs one past the block to feed the zeros. */
  method DataCrc(data: array<Octet>) returns (crc: Octet)
    requires data.Length >= 32
    ensures PolyOf(crc) == Crc(data[..32])
  {
    crc := 0;
    ZeroIsEmpty();
    hide OctetBits, Feed, PolyOf;
    for i := 0 to 33
      invariant PolyOf(crc) == Run(P, 8, {}, if i <= 32 then BlockBits(data[..i]) else BlockBits(data[..32]) + Zeros(8))
    {
      ghost var word := if i < 32 then OctetBits(data[i]) else Zeros(8);
      RunSplit(P, 8, {}, BlockBits(data[..i]), word);
      assert i < 32 ==> data[..i + 1][..i] == data[..i];
      crc := FeedOctet(crc, data, i);
    }
  }

  lemma ZeroIsEmpty()
    ensures PolyOf(0) == {}
  {}
}
