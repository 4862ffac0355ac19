/** The audio interface's double-buffered DMA: what it plays, when it interrupts, and
    that time may be passed to it in any pieces. */
module AiSpec {

  const SPACE: nat := 0x100_0000

  const CARRY: nat := 0x2000

  /** What one sample period puts out: silence, or the word at an address. */
  datatype Output = Silence | Word(address: nat)

  /** The registers and counters, the samples pushed and the interrupts raised so far.
      Slot 0 plays while slot 1 waits. */
  datatype Ai = Ai(address0: nat, length0: nat, address1: nat, length1: nat, count: nat, carry: bool,
                   cycles: nat, period: nat, out: seq<Output>, raises: nat)

  /** At most two DMAs, aligned addresses within 16 MiB, and lengths not yet used up. */
  predicate Valid(s: Ai) {
    && s.count <= 2 && s.address0 < SPACE && s.address1 < SPACE
    && s.address0 % 4 == 0 && s.address1 % 4 == 0
    && (s.count > 0 ==> s.length0 > 0 && s.length0 % 4 == 0)
    && (s.count > 1 ==> s.length1 > 0 && s.length1 % 4 == 0)
    && s.period > 0
  }

  // ----- Register writes and samples -----

  function AddressOf(value: nat): nat { value % SPACE / 8 * 8 }

  function LengthOf(value: nat): nat { value % 0x4_0000 / 8 * 8 }

  function WriteAddress(s: Ai, value: nat): Ai {
    if s.count == 0 then s.(address0 := AddressOf(value))
    else if s.count == 1 then s.(address1 := AddressOf(value))
    else s
  }

  predicate Accepts(s: Ai, value: nat) { s.count < 2 && LengthOf(value) > 0 }

  function WriteLength(s: Ai, value: nat): Ai {
    if !Accepts(s, value) then s
    else if s.count == 0 then s.(length0 := LengthOf(value), count := 1)
    else s.(length1 := LengthOf(value), count := 2)
  }

  /** The address with the pending carry moved into its upper part. */
  function Carried(address: nat, carry: bool): nat {
    var hi := (address / CARRY + (if carry then 1 else 0)) % 0x800;
    hi * CARRY + address % CARRY
  }

  function Sample(s: Ai): Ai
    requires Valid(s)
  {
    if s.count == 0 then s.(out := s.out + [Silence])
    else
      var a := Carried(s.address0, s.carry);
      var lo := (a + 4) % CARRY;
      var s1 := s.(out := s.out + [Word(a)], address0 := a / CARRY * CARRY + lo, carry := lo == 0, length0 := s.length0 - 4);
      if s1.length0 > 0 then s1
      else if s1.count == 1 then s1.(count := 0, raises := s1.raises + 1)
      else s1.(count := 1, raises := s1.raises + 1, address0 := s1.address1, length0 := s1.length1)
  }

  /** The sample loop. */
  function Drain(s: Ai): Ai
    requires Valid(s)
    decreases s.cycles
  {
    if s.cycles <= s.period then s
    else
      SampleKeepsValid(s);
      var r := Sample(s);
      Drain(r.(cycles := r.cycles - r.period))
  }

  function AiStep(s: Ai, cycles: nat): Ai
    requires Valid(s)
  {
    Drain(s.(cycles := s.cycles + cycles))
  }

  lemma CarriedFacts(address: nat, carry: bool)
    requires address < SPACE && address % 4 == 0
    ensures var a := Carried(address, carry);
      && a < SPACE && a % 4 == 0
      && a == (if carry then if address + CARRY < SPACE then address + CARRY else address + CARRY - SPACE else address)
  {
    var q, r := address / CARRY, address % CARRY;
    assert address == q * CARRY + r && q < 0x800;
    assert r % 4 == 0;
  }

  /** One sample moves the carried address on by four, around 16 MiB. */
  lemma Advance(a: nat)
    requires a < SPACE && a % 4 == 0
    ensures var lo := (a + 4) % CARRY; var next := a / CARRY * CARRY + lo;
      && next < SPACE && next % 4 == 0 && (lo == 0 <==> a % CARRY == CARRY - 4)
      && Carried(next, lo == 0) == (if a + 4 == SPACE then 0 else a + 4)
  {
    var q, r := a / CARRY, a % CARRY;
    FourAligned(q, r);
    if r == CARRY - 4 {
      Divided(q + 1, 0);
      Divided(q, 0);
      CarriedFacts(q * CARRY, true);
    } else {
      Divided(q, r + 4);
      CarriedFacts(a + 4, false);
    }
  }

  lemma Divided(q: nat, r: nat)
    requires r < CARRY
    ensures (q * CARRY + r) / CARRY == q && (q * CARRY + r) % CARRY == r
    ensures (q * CARRY + r) % 4 == r % 4
  {
    assert q * CARRY == 4 * (q * 0x800);
  }

  /** Eight KiB frames are whole words. */
  lemma FourAligned(q: nat, r: nat)
    requires r < CARRY && (q * CARRY + r) % 4 == 0
    ensures r % 4 == 0 && r <= CARRY - 4
  {
    Divided(q, r);
  }

  lemma SampleKeepsValid(s: Ai)
    requires Valid(s)
    ensures Valid(Sample(s)) && Sample(s).cycles == s.cycles && Sample(s).period == s.period
  {
    hide Carried;
    if s.count > 0 {
      CarriedFacts(s.address0, s.carry);
      Advance(Carried(s.address0, s.carry));
    }
  }

  /** Registers keep a multiple of 8: of the low 24 bits of an address, of the low 18 of a
      length. */
  lemma RegisterFields(value: nat)
    ensures AddressOf(value) % 8 == 0 && AddressOf(value) <= value % SPACE < AddressOf(value) + 8
    ensures LengthOf(value) % 8 == 0 && LengthOf(value) <= value % 0x4_0000 < LengthOf(value) + 8
  {
    Eighths(value % SPACE);
    Eighths(value % 0x4_0000);
  }

  lemma Eighths(x: nat)
    ensures x / 8 * 8 % 8 == 0 && x / 8 * 8 <= x < x / 8 * 8 + 8
  {}

  /** An address and then a length, with a slot free: a DMA starts exactly if the length
      is at least 8 in its 18 bits, with both values rounded down to 8. */
  lemma AddressThenLength(s: Ai, address: nat, length: nat)
    requires Valid(s) && s.count < 2
    ensures
      var w := WriteAddress(s, address);
      var d := Accepted(w, length);
      && (Accepts(w, length) <==> length % 0x4_0000 >= 8)
      && d.address % 8 == 0 && d.address <= address % SPACE < d.address + 8
      && d.length % 8 == 0 && d.length <= length % 0x4_0000 < d.length + 8
      && WriteLength(w, length).count == s.count + (if length % 0x4_0000 >= 8 then 1 else 0)
      && (s.count == 1 ==> WriteLength(w, length).address0 == s.address0 && WriteLength(w, length).length0 == s.length0)
  {
    hide AddressOf, LengthOf;
    RegisterFields(address);
    RegisterFields(length);
  }

  lemma WritesKeepValid(s: Ai, value: nat)
    requires Valid(s)
    ensures Valid(WriteAddress(s, value)) && Valid(WriteLength(s, value))
  {
    WholeWords(value % SPACE / 8);
    WholeWords(value % 0x4_0000 / 8);
    assert AddressOf(value) < SPACE;
    hide AddressOf, LengthOf;
  }

  lemma WholeWords(n: nat)
    ensures n * 8 % 4 == 0
  {}

  // ----- Time in pieces -----

  /** With no register write between them, two steps are one step of their sum. */
  lemma {:induction false} StepsAdd(s: Ai, a: nat, b: nat)
    requires Valid(s)
    ensures Valid(AiStep(s, a)) && AiStep(AiStep(s, a), b) == AiStep(s, a + b)
  {
    DrainAdds(s.(cycles := s.cycles + a), b);
  }

  lemma {:induction false} DrainAdds(s: Ai, b: nat)
    requires Valid(s)
    ensures Valid(Drain(s))
    ensures Drain(Drain(s).(cycles := Drain(s).cycles + b)) == Drain(s.(cycles := s.cycles + b))
    decreases s.cycles
  {
    hide Sample;
    if s.cycles > s.period {
      SampleKeepsValid(s);
      var r := Sample(s);
      DrainAdds(r.(cycles := r.cycles - r.period), b);
      SampleIgnoresCycles(s, s.cycles + b);
    }
  }

  lemma SampleIgnoresCycles(s: Ai, c: nat)
    requires Valid(s)
    ensures Sample(s.(cycles := c)) == Sample(s).(cycles := c)
  {}

  // ----- What is played -----

  datatype Dma = Dma(address: nat, length: nat)

  /** `n` words from `start` on, around 16 MiB. */
  function Words(start: nat, n: nat): (w: seq<nat>)
    ensures |w| == n
  {
    seq(n, k requires 0 <= k < n => (start + 4 * k) % SPACE)
  }

  function StartOf(d: Dma, carry: bool): nat { d.address + (if carry then CARRY else 0) }

  /** A DMA hands a carry on when it ends on an 8 KiB boundary. */
  predicate EndsOnBoundary(d: Dma) { (d.address + d.length) % CARRY == 0 }

  function CarryAfter(ds: seq<Dma>): bool { ds != [] && EndsOnBoundary(ds[|ds| - 1]) }

  /** What the accepted DMAs play, in order. */
  function Schedule(ds: seq<Dma>): seq<nat> {
    if ds == [] then []
    else
      var d := ds[|ds| - 1];
      Schedule(ds[..|ds| - 1]) + Words(StartOf(d, CarryAfter(ds[..|ds| - 1])), d.length / 4)
  }

  function Played(out: seq<Output>): seq<nat> {
    if out == [] then []
    else Played(out[..|out| - 1]) + (if out[|out| - 1].Word? then [out[|out| - 1].address] else [])
  }

  /** What the DMAs in hand will still play. */
  function Rest(s: Ai): seq<nat> {
    if s.count == 0 then []
    else
      Words(Carried(s.address0, s.carry), s.length0 / 4) +
      (if s.count == 1 then []
       else Words(StartOf(Dma(s.address1, s.length1), FinalCarry(s.(count := 1))), s.length1 / 4))
  }

  /** The carry left when everything in hand has played. */
  function FinalCarry(s: Ai): bool {
    if s.count == 0 then s.carry
    else if s.count == 1 then (Carried(s.address0, s.carry) + s.length0) % CARRY == 0
    else EndsOnBoundary(Dma(s.address1, s.length1))
  }

  /** Played and still to play together are the schedule of the accepted DMAs. */
  ghost predicate Inv(s: Ai, ds: seq<Dma>) {
    && Valid(s)
    && Played(s.out) + Rest(s) == Schedule(ds)
    && FinalCarry(s) == CarryAfter(ds)
    && s.raises + s.count == |ds|
  }

  lemma WordsWrap(a: nat, n: nat)
    ensures Words(a + SPACE, n) == Words(a, n)
  {}

  lemma WordsHead(a: nat, n: nat)
    requires n > 0 && a < SPACE
    ensures Words(a, n) == [a] + Words(a + 4, n - 1)
  {
    forall k | 0 <= k < n ensures Words(a, n)[k] == ([a] + Words(a + 4, n - 1))[k] {
      if k > 0 {
        assert a + 4 + 4 * (k - 1) == a + 4 * k;
      }
    }
  }

  /** The carried address starts the same words as the address plus the carry, and
      ends on the same side of a boundary. */
  lemma CarriedStarts(address: nat, length: nat, carry: bool)
    requires address < SPACE && address % 4 == 0
    ensures Words(Carried(address, carry), length / 4) == Words(StartOf(Dma(address, length), carry), length / 4)
    ensures (Carried(address, carry) + length) % CARRY == (address + length) % CARRY
  {
    CarriedFacts(address, carry);
    hide Carried, Words;
    if carry && address + CARRY >= SPACE {
      WordsWrap(Carried(address, carry), length / 4);
      assert address + length + CARRY == Carried(address, carry) + length + SPACE;
    }
  }

  lemma ScheduleGrows(ds: seq<Dma>, d: Dma)
    ensures Schedule(ds + [d]) == Schedule(ds) + Words(StartOf(d, CarryAfter(ds)), d.length / 4)
    ensures CarryAfter(ds + [d]) == EndsOnBoundary(d)
  {
    assert (ds + [d])[..|ds|] == ds;
  }

  /** The DMA an accepted length starts: the address in its slot, and the length. */
  function Accepted(s: Ai, value: nat): Dma { Dma(if s.count == 0 then s.address0 else s.address1, LengthOf(value)) }

  lemma WriteLengthKeeps(s: Ai, ds: seq<Dma>, value: nat)
    requires Inv(s, ds)
    ensures Inv(WriteLength(s, value), if Accepts(s, value) then ds + [Accepted(s, value)] else ds)
  {
    hide Carried, Words, Schedule, Played, LengthOf;
    WritesKeepValid(s, value);
    if Accepts(s, value) {
      ScheduleGrows(ds, Accepted(s, value));
      if s.count == 0 {
        CarriedStarts(s.address0, LengthOf(value), s.carry);
      }
    }
  }

  lemma WriteAddressKeeps(s: Ai, ds: seq<Dma>, value: nat)
    requires Inv(s, ds)
    ensures Inv(WriteAddress(s, value), ds)
  {
    hide Carried, Words, Schedule, Played, AddressOf;
    WritesKeepValid(s, value);
  }

  /** One word of a DMA in hand is played and the rest is unchanged. */
  lemma PlaysNext(a: nat, length: nat)
    requires a < SPACE && a % 4 == 0 && length > 0 && length % 4 == 0
    ensures var lo := (a + 4) % CARRY; var next := Carried(a / CARRY * CARRY + lo, lo == 0);
      && Words(a, length / 4) == [a] + Words(next, (length - 4) / 4)
      && (next + (length - 4)) % CARRY == (a + length) % CARRY
      && (length == 4 ==> (lo == 0 <==> (a + length) % CARRY == 0))
  {
    Advance(a);
    WordsHead(a, length / 4);
    assert (length - 4) / 4 == length / 4 - 1;
    var lo := (a + 4) % CARRY;
    var next := Carried(a / CARRY * CARRY + lo, lo == 0);
    hide Carried, Words;
    if a + 4 == SPACE {
      WordsWrap(0, (length - 4) / 4);
      assert next + (length - 4) + SPACE == a + length;
      FrameTurns(next + (length - 4));
    }
  }

  lemma FrameTurns(x: nat)
    ensures (x + SPACE) % CARRY == x % CARRY
  {}

  lemma PlayedGrows(out: seq<Output>, o: Output)
    ensures Played(out + [o]) == Played(out) + (if o.Word? then [o.address] else [])
  {
    assert (out + [o])[..|out|] == out;
  }

  lemma SampleShape(s: Ai)
    requires Valid(s)
    ensures Sample(s).out == s.out + [if s.count == 0 then Silence else Word(Carried(s.address0, s.carry))]
    ensures Sample(s).raises + Sample(s).count == s.raises + s.count
    ensures s.count == 0 ==> Sample(s) == s.(out := Sample(s).out)
  {
    hide Carried;
  }

  lemma SampleKeeps(s: Ai, ds: seq<Dma>)
    requires Inv(s, ds)
    ensures Inv(Sample(s), ds)
  {
    hide Carried, Sample, Schedule, Played, Rest, FinalCarry, Valid;
    SampleKeepsValid(s);
    SampleShape(s);
    PlayedGrows(s.out, Sample(s).out[|s.out|]);
    if s.count == 0 {
      NothingMoves(s);
    } else {
      RestMoves(s);
      Associate(Played(s.out), [Carried(s.address0, s.carry)], Rest(Sample(s)));
    }
  }

  lemma Associate(a: seq<nat>, b: seq<nat>, c: seq<nat>)
    ensures a + b + c == a + (b + c)
  {}

  lemma NoWords(a: nat)
    ensures Words(a, 0) == []
  {}

  lemma NothingMoves(s: Ai)
    requires Valid(s) && s.count == 0
    ensures Rest(Sample(s)) == Rest(s) && FinalCarry(Sample(s)) == FinalCarry(s)
    ensures Played(s.out) + [] == Played(s.out)
  {}

  /** Playing one word takes it off what is left and keeps the final carry. */
  lemma RestMoves(s: Ai)
    requires Valid(s) && s.count > 0
    ensures Rest(s) == [Carried(s.address0, s.carry)] + Rest(Sample(s))
    ensures FinalCarry(Sample(s)) == FinalCarry(s)
  {
    CarriedFacts(s.address0, s.carry);
    PlaysNext(Carried(s.address0, s.carry), s.length0);
    hide Carried, Words, StartOf;
    if s.length0 > 4 {
      RestContinues(s);
    } else {
      assert s.length0 == 4;
      RestTurns(s);
    }
  }

  /** The address and carry after a sample from `a`. */
  function Stepped(a: nat): (nat, bool) { (a / CARRY * CARRY + (a + 4) % CARRY, (a + 4) % CARRY == 0) }

  lemma RestContinues(s: Ai)
    requires Valid(s) && s.count > 0 && s.length0 > 4
    ensures Rest(s) == [Carried(s.address0, s.carry)] + Rest(Sample(s))
    ensures FinalCarry(Sample(s)) == FinalCarry(s)
  {
    hide Carried, Words, StartOf;
    var a := Carried(s.address0, s.carry);
    CarriedFacts(s.address0, s.carry);
    PlaysNext(a, s.length0);
    var r, n := Sample(s), Stepped(a);
    assert r.count == s.count && r.address0 == n.0 && r.carry == n.1 && r.length0 == s.length0 - 4
      && r.address1 == s.address1 && r.length1 == s.length1;
    hide Sample;
    if s.count == 2 {
      Associate([a], Words(Carried(n.0, n.1), r.length0 / 4),
        Words(StartOf(Dma(s.address1, s.length1), FinalCarry(s.(count := 1))), s.length1 / 4));
    }
  }

  lemma RestTurns(s: Ai)
    requires Valid(s) && s.count > 0 && s.length0 == 4
    ensures Rest(s) == [Carried(s.address0, s.carry)] + Rest(Sample(s))
    ensures FinalCarry(Sample(s)) == FinalCarry(s)
  {
    hide Carried, Words, StartOf;
    var a := Carried(s.address0, s.carry);
    CarriedFacts(s.address0, s.carry);
    PlaysNext(a, 4);
    var r, n := Sample(s), Stepped(a);
    NoWords(Carried(n.0, n.1));
    assert r.count == s.count - 1 && r.carry == n.1;
    assert s.count == 2 ==> r.address0 == s.address1 && r.length0 == s.length1;
    hide Sample;
    assert Words(a, 1) == [a];
    if s.count == 2 {
      CarriedStarts(s.address1, s.length1, n.1);
    }
  }
}
