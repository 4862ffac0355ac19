/** The write-back data cache as a value: 512 direct-mapped lines of 16 bytes in
    front of RDRAM, and the flat memory the CPU sees through it. */
module DCache {
  import opened Swizzle

  const RDRAM_SIZE: nat := 0x80_0000
  const LINES: nat := 512
  const LINE_BYTES: nat := 16

  datatype Line = Line(valid: bool, dirty: bool, ptag: nat, data: Bytes)

  type Ram = m: Bytes | |m| == RDRAM_SIZE witness seq(RDRAM_SIZE, _ => 0)

  /** For each physical page, bit 12 of the virtual addresses it is accessed through. */
  type Colouring = nat -> nat

  datatype Cache = Cache(lines: seq<Line>, rdram: Ram, colour: Colouring) {
    predicate Shaped() { |lines| == LINES && forall x :: 0 <= x < LINES ==> |lines[x].data| == LINE_BYTES }
  }

  function LineIndex(vaddr: nat): (x: nat)
    ensures x < LINES
  {
    (vaddr / 16) % 512
  }

  function LineStart(paddr: nat): nat { paddr - paddr % 16 }

  function PTag(paddr: nat): nat { paddr / 4096 }

  /** The line a physical address is held in: bits 4 to 11 are its own, bit 12 is its
      page's colour. */
  function Slot(f: Colouring, paddr: nat): (x: nat)
    ensures x < LINES
  {
    (paddr % 4096) / 16 + 256 * (f(PTag(paddr)) % 2)
  }

  /** Where line `x` with tag `ptag` lives: bits 4 to 11 come from the index. */
  function HomeOf(x: nat, ptag: nat): nat { ptag * 4096 + (x % 256) * 16 }

  /** A line's tag has the colour of the half of the cache the line is in. */
  predicate TagOk(f: Colouring, x: nat, l: Line) {
    f(l.ptag) % 2 == x / 256 && HomeOf(x, l.ptag) + LINE_BYTES <= RDRAM_SIZE
  }

  /** Tags agree with indices, and clean lines equal RDRAM. */
  ghost predicate Coherent(c: Cache)
    requires c.Shaped()
  {
    && (forall x :: 0 <= x < LINES && c.lines[x].valid ==> TagOk(c.colour, x, c.lines[x]))
    && (forall p :: 0 <= p < RDRAM_SIZE && Holds(c, p) && !c.lines[Slot(c.colour, p)].dirty ==> c.rdram[p] == Seen(c, p))
  }

  predicate Holds(c: Cache, paddr: nat)
    requires c.Shaped()
  {
    var l := c.lines[Slot(c.colour, paddr)];
    l.valid && l.ptag == PTag(paddr)
  }

  /** The byte the CPU sees at a physical address. */
  function Seen(c: Cache, paddr: nat): byte
    requires c.Shaped() && paddr < RDRAM_SIZE
  {
    if Holds(c, paddr) then c.lines[Slot(c.colour, paddr)].data[paddr % 16] else c.rdram[paddr]
  }

  // ----- Operations -----

  /** The same place in a page. */
  predicate SameOffset(vaddr: nat, paddr: nat) { vaddr % 4096 == paddr % 4096 }

  /** A mapping of pages that gives each physical page one colour. */
  predicate Mapped(f: Colouring, vaddr: nat, paddr: nat) {
    SameOffset(vaddr, paddr) && (vaddr / 4096) % 2 == f(PTag(paddr)) % 2 && paddr < RDRAM_SIZE
  }

  /** A mapping that keeps the low 13 bits, as KSEG0 does, colours each page by its own
      bit 12. */
  lemma KeepingBitsColours(vaddr: nat, paddr: nat)
    ensures Mapped(t => t, vaddr, paddr) <==> vaddr % 8192 == paddr % 8192 && paddr < RDRAM_SIZE
  {
    Halves13(vaddr);
    Halves13(paddr);
  }

  lemma Halves13(a: nat)
    ensures a % 8192 == (a / 4096) % 2 * 4096 + a % 4096
  {
    var h, t, o := a / 8192, a / 4096, a % 4096;
    assert a == 4096 * t + o;
    var u, b := t / 2, t % 2;
    assert a == 8192 * u + (4096 * b + o);
  }

  function Writeback(c: Cache, vaddr: nat, paddr: nat): (r: Cache)
    requires c.Shaped()
    requires LineStart(c.lines[LineIndex(vaddr)].ptag * 4096 + paddr % 4096) + LINE_BYTES <= RDRAM_SIZE
    ensures r.Shaped() && r.colour == c.colour
  {
    var x := LineIndex(vaddr);
    var l := c.lines[x];
    c.(rdram := Patch(c.rdram, LineStart(l.ptag * 4096 + paddr % 4096), l.data),
       lines := c.lines[x := l.(dirty := false)])
  }

  /** A line written back goes to the home its tag gives, whatever its colour. */
  lemma HomeOfAny(vaddr: nat, paddr: nat, ptag: nat)
    requires SameOffset(vaddr, paddr)
    ensures LineStart(ptag * 4096 + paddr % 4096) == HomeOf(LineIndex(vaddr), ptag)
  {
    IndexParts(vaddr);
    LineStartShift(ptag, paddr % 4096);
    hide LineIndex, LineStart;
    LowIndex((vaddr % 4096) / 16, (vaddr / 4096) % 2);
    StartOfLine(paddr % 4096);
  }

  lemma HomeOfLine(f: Colouring, vaddr: nat, paddr: nat, ptag: nat)
    requires Mapped(f, vaddr, paddr)
    ensures LineIndex(vaddr) == Slot(f, paddr)
    ensures LineStart(ptag * 4096 + paddr % 4096) == HomeOf(LineIndex(vaddr), ptag)
  {
    HomeOfAny(vaddr, paddr, ptag);
    IndexParts(vaddr);
    hide LineIndex, LineStart, HomeOf;
  }

  /** A line's index: bits 4 to 11, and bit 12. */
  lemma IndexParts(v: nat)
    ensures LineIndex(v) == (v % 4096) / 16 + 256 * ((v / 4096) % 2)
  {
    var t, o := v / 4096, v % 4096;
    var u, b := t / 2, t % 2;
    assert v == 16 * (512 * u + 256 * b + o / 16) + o % 16;
    assert v / 16 == 512 * u + (256 * b + o / 16);
  }

  lemma LowIndex(low: nat, b: nat)
    requires low < 256
    ensures (low + 256 * b) % 256 == low && (low + 256 * b) / 256 == b
  {}

  lemma StartOfLine(o: nat)
    ensures LineStart(o) == (o / 16) * 16
  {}

  lemma LineStartShift(t: nat, o: nat)
    ensures LineStart(t * 4096 + o) == t * 4096 + LineStart(o)
  {
    assert (t * 4096 + o) % 16 == o % 16;
  }

  lemma LineFits(paddr: nat)
    requires paddr < RDRAM_SIZE
    ensures LineStart(paddr) + LINE_BYTES <= RDRAM_SIZE
  {}

  /** Fetching a line on a miss. */
  function Fill(c: Cache, vaddr: nat, paddr: nat): (r: Cache)
    requires c.Shaped() && paddr < RDRAM_SIZE
    ensures r.Shaped() && r.colour == c.colour
  {
    LineFits(paddr);
    var data := c.rdram[LineStart(paddr)..LineStart(paddr) + LINE_BYTES];
    c.(lines := c.lines[LineIndex(vaddr) := Line(true, false, PTag(paddr), data)])
  }

  /** Valid lines come from RDRAM. */
  predicate TagsFit(c: Cache)
    requires c.Shaped()
  {
    forall x :: 0 <= x < LINES && c.lines[x].valid ==> HomeOf(x, c.lines[x].ptag) + LINE_BYTES <= RDRAM_SIZE
  }

  function Prep(c: Cache, vaddr: nat, paddr: nat): (r: Cache)
    requires c.Shaped() && TagsFit(c) && SameOffset(vaddr, paddr) && paddr < RDRAM_SIZE
    ensures r.Shaped() && r.colour == c.colour
  {
    HomeOfAny(vaddr, paddr, c.lines[LineIndex(vaddr)].ptag);
    var x := LineIndex(vaddr);
    var l := c.lines[x];
    if l.valid && l.ptag == PTag(paddr) then c
    else
      Fill(if l.valid && l.dirty then Writeback(c, vaddr, paddr) else c, vaddr, paddr)
  }

  predicate InLine(paddr: nat, z: Size) { paddr % Width(z) == 0 }

  lemma Mod16(p: nat)
    ensures (p % 16) % 2 == p % 2 && (p % 16) % 4 == p % 4 && (p % 16) % 8 == p % 8
  {
    Mod16By2(p);
    Mod16By4(p);
    Mod16By8(p);
  }

  lemma Mod16By2(p: nat)
    ensures (p % 16) % 2 == p % 2
  {
    var m, o := p / 16, p % 16;
    assert p == 2 * (8 * m + o / 2) + o % 2;
  }

  lemma Mod16By4(p: nat)
    ensures (p % 16) % 4 == p % 4
  {
    var m, o := p / 16, p % 16;
    assert p == 4 * (4 * m + o / 4) + o % 4;
  }

  lemma Mod16By8(p: nat)
    ensures (p % 16) % 8 == p % 8
  {
    var m, o := p / 16, p % 16;
    Remainder8(2 * m + o / 8, o % 8);
  }

  lemma Remainder8(k: nat, y: nat)
    requires y < 8
    ensures (8 * k + y) % 8 == y
  {}

  lemma OffsetFits(o: nat, z: Size)
    requires o < 16 && o % Width(z) == 0
    ensures RawAddress(z, o) + Width(z) <= LINE_BYTES
  {
    match z
    case Byte => ByteAddressFits(o, 16);
    case Half => EvenInGroup(o);
    case Word =>
    case Dword =>
  }

  lemma AccessInLine(paddr: nat, z: Size)
    requires InLine(paddr, z)
    ensures RawAddress(z, paddr % 16) + Width(z) <= LINE_BYTES && (paddr % 16) % Width(z) == 0
    ensures RawAddress(z, paddr) == LineStart(paddr) + RawAddress(z, paddr % 16)
  {
    Mod16(paddr);
    OffsetFits(paddr % 16, z);
  }

  /** A sized access to a line's bytes; only the offset within the line matters. */
  function LineRead(l: Line, z: Size, paddr: nat): (v: Bytes)
    requires |l.data| == LINE_BYTES && InLine(paddr, z)
    ensures |v| == Width(z)
  {
    AccessInLine(paddr, z);
    ReadRaw(l.data, z, paddr % 16)
  }

  function LineWrite(l: Line, z: Size, paddr: nat, v: Bytes): (r: Line)
    requires |l.data| == LINE_BYTES && InLine(paddr, z) && |v| == Width(z)
    ensures |r.data| == LINE_BYTES
  {
    AccessInLine(paddr, z);
    l.(data := WriteRaw(l.data, z, paddr % 16, v), dirty := true)
  }

  /** A sized cached read. */
  function Read(c: Cache, z: Size, vaddr: nat, paddr: nat): (r: (Cache, Bytes))
    requires c.Shaped() && TagsFit(c) && SameOffset(vaddr, paddr) && paddr < RDRAM_SIZE && InLine(paddr, z)
    ensures r.0.Shaped() && r.0.colour == c.colour && |r.1| == Width(z)
  {
    var c' := Prep(c, vaddr, paddr);
    (c', LineRead(c'.lines[LineIndex(vaddr)], z, paddr))
  }

  /** A sized cached write. */
  function Write(c: Cache, z: Size, vaddr: nat, paddr: nat, v: Bytes): (r: Cache)
    requires c.Shaped() && TagsFit(c) && SameOffset(vaddr, paddr) && paddr < RDRAM_SIZE && InLine(paddr, z) && |v| == Width(z)
    ensures r.Shaped() && r.colour == c.colour
  {
    var c' := Prep(c, vaddr, paddr);
    var x := LineIndex(vaddr);
    c'.(lines := c'.lines[x := LineWrite(c'.lines[x], z, paddr, v)])
  }

  datatype CacheOp = IndexWritebackInvalidate | HitInvalidate | HitWritebackInvalidate | HitWriteback

  /** The data-cache operations of the CACHE instruction. */
  function Operate(c: Cache, op: CacheOp, vaddr: nat, paddr: nat): (r: Cache)
    requires c.Shaped() && TagsFit(c) && SameOffset(vaddr, paddr)
    ensures r.Shaped() && r.colour == c.colour
  {
    HomeOfAny(vaddr, paddr, c.lines[LineIndex(vaddr)].ptag);
    var x := LineIndex(vaddr);
    var l := c.lines[x];
    var hit := l.valid && (op == IndexWritebackInvalidate || l.ptag == PTag(paddr));
    if !hit then c
    else
      var c1 := if op == HitInvalidate then c else Writeback(c, vaddr, paddr);
      if op == HitWriteback then c1 else c1.(lines := c1.lines[x := c1.lines[x].(valid := false)])
  }

  // ----- What the CPU sees -----

  lemma HomeIdentifies(f: Colouring, paddr: nat)
    requires paddr < RDRAM_SIZE
    ensures HomeOf(Slot(f, paddr), PTag(paddr)) == LineStart(paddr)
    ensures f(PTag(paddr)) % 2 == Slot(f, paddr) / 256
    ensures PTag(paddr) * 4096 < RDRAM_SIZE
  {
    LowIndex((paddr % 4096) / 16, f(PTag(paddr)) % 2);
    LineStartShift(PTag(paddr), paddr % 4096);
    StartOfLine(paddr % 4096);
    hide LineStart;
    assert paddr == PTag(paddr) * 4096 + paddr % 4096;
  }

  /** Addresses of one line: same index and tag, and consecutive. */
  lemma LineAddresses(f: Colouring, x: nat, t: nat, p: nat)
    requires x < LINES && f(t) % 2 == x / 256 && HomeOf(x, t) <= p < HomeOf(x, t) + LINE_BYTES
    ensures Slot(f, p) == x && PTag(p) == t && p % 16 == p - HomeOf(x, t)
  {
    var o, k := p - HomeOf(x, t), x % 256;
    InPage(p, t, 16 * k + o);
    InCell(p, 256 * t + k, o);
    InCell(16 * k + o, k, o);
  }

  lemma InPage(p: nat, t: nat, x: nat)
    requires x < 4096 && p == 4096 * t + x
    ensures p / 4096 == t && p % 4096 == x
  {}

  lemma InCell(p: nat, q: nat, o: nat)
    requires o < 16 && p == 16 * q + o
    ensures p / 16 == q && p % 16 == o
  {}

  /** An address outside a line's home differs from it in index or tag. */
  lemma NotInLine(f: Colouring, x: nat, t: nat, p: nat)
    requires x < LINES && p < RDRAM_SIZE && !(HomeOf(x, t) <= p < HomeOf(x, t) + LINE_BYTES)
    ensures !(Slot(f, p) == x && PTag(p) == t)
  {
    HomeIdentifies(f, p);
  }

  /** Writing a line back changes no byte the CPU sees and makes the line clean. */
  lemma WritebackByte(c: Cache, vaddr: nat, paddr: nat, p: nat)
    requires c.Shaped() && Coherent(c) && SameOffset(vaddr, paddr) && c.lines[LineIndex(vaddr)].valid
    requires LineStart(c.lines[LineIndex(vaddr)].ptag * 4096 + paddr % 4096) + LINE_BYTES <= RDRAM_SIZE
    requires p < RDRAM_SIZE
    ensures
      var r := Writeback(c, vaddr, paddr);
      && Seen(r, p) == Seen(c, p)
      && r.rdram[p] == (if Slot(c.colour, p) == LineIndex(vaddr) && Holds(c, p) then Seen(c, p) else c.rdram[p])
  {
    var x := LineIndex(vaddr);
    var l := c.lines[x];
    HomeOfAny(vaddr, paddr, l.ptag);
    var h := HomeOf(x, l.ptag);
    hide LineIndex, Slot, LineStart, PTag, HomeOf, Coherent;
    if h <= p < h + LINE_BYTES {
      assert TagOk(c.colour, x, l);
      LineAddresses(c.colour, x, l.ptag, p);
    } else {
      NotInLine(c.colour, x, l.ptag, p);
    }
  }

  lemma WritebackKeepsCoherence(c: Cache, vaddr: nat, paddr: nat)
    requires c.Shaped() && Coherent(c) && SameOffset(vaddr, paddr) && c.lines[LineIndex(vaddr)].valid
    requires LineStart(c.lines[LineIndex(vaddr)].ptag * 4096 + paddr % 4096) + LINE_BYTES <= RDRAM_SIZE
    ensures Coherent(Writeback(c, vaddr, paddr))
  {
    hide LineIndex, Slot, LineStart, PTag, HomeOf, Writeback;
    var r := Writeback(c, vaddr, paddr);
    WritebackLines(c, vaddr, paddr);
    forall p | 0 <= p < RDRAM_SIZE && Holds(r, p) && !r.lines[Slot(c.colour, p)].dirty
      ensures r.rdram[p] == Seen(r, p)
    {
      WritebackByte(c, vaddr, paddr, p);
    }
  }

  lemma WritebackLines(c: Cache, vaddr: nat, paddr: nat)
    requires c.Shaped()
    requires LineStart(c.lines[LineIndex(vaddr)].ptag * 4096 + paddr % 4096) + LINE_BYTES <= RDRAM_SIZE
    ensures
      var x := LineIndex(vaddr);
      Writeback(c, vaddr, paddr).lines == c.lines[x := c.lines[x].(dirty := false)]
  {}

  lemma FillLine(c: Cache, vaddr: nat, paddr: nat, p: nat)
    requires c.Shaped() && Mapped(c.colour, vaddr, paddr) && p < RDRAM_SIZE
    ensures
      var r := Fill(c, vaddr, paddr);
      && r.rdram == c.rdram
      && (Slot(c.colour, p) == Slot(c.colour, paddr) ==>
           (Holds(r, p) <==> PTag(p) == PTag(paddr)) && (Holds(r, p) ==> Seen(r, p) == c.rdram[p]))
      && (Slot(c.colour, p) != Slot(c.colour, paddr) ==> (Holds(r, p) <==> Holds(c, p)) && Seen(r, p) == Seen(c, p))
  {
    hide LineIndex, Slot, PTag, HomeOf, LineStart;
    HomeOfLine(c.colour, vaddr, paddr, 0);
    LineFits(paddr);
    if Slot(c.colour, p) == Slot(c.colour, paddr) && PTag(p) == PTag(paddr) {
      HomeIdentifies(c.colour, p);
      HomeIdentifies(c.colour, paddr);
      StartOf(p);
      assert p == LineStart(paddr) + p % 16;
    }
  }

  lemma StartOf(p: nat)
    ensures p == LineStart(p) + p % 16
  {}

  /** Nothing is lost when the replaced line is clean or invalid. */
  lemma FillIsInvisible(c: Cache, vaddr: nat, paddr: nat)
    requires c.Shaped() && Coherent(c) && Mapped(c.colour, vaddr, paddr)
    requires c.lines[LineIndex(vaddr)].valid ==> !c.lines[LineIndex(vaddr)].dirty
    ensures Coherent(Fill(c, vaddr, paddr)) && Holds(Fill(c, vaddr, paddr), paddr)
    ensures forall p :: 0 <= p < RDRAM_SIZE ==> Seen(Fill(c, vaddr, paddr), p) == Seen(c, p)
  {
    HomeOfLine(c.colour, vaddr, paddr, 0);
    HomeIdentifies(c.colour, paddr);
    LineFits(paddr);
    FillLine(c, vaddr, paddr, paddr);
    hide LineIndex, Slot, PTag, HomeOf, LineStart;
    var r := Fill(c, vaddr, paddr);
    hide Fill;
    forall p | 0 <= p < RDRAM_SIZE
      ensures Seen(r, p) == Seen(c, p)
      ensures Holds(r, p) && !r.lines[Slot(c.colour, p)].dirty ==> r.rdram[p] == Seen(r, p)
    {
      FillLine(c, vaddr, paddr, p);
      FillTags(c, vaddr, paddr, p);
    }
    FillOthers(c, vaddr, paddr);
  }

  lemma FillTags(c: Cache, vaddr: nat, paddr: nat, p: nat)
    requires c.Shaped() && Mapped(c.colour, vaddr, paddr)
    ensures Slot(c.colour, p) != Slot(c.colour, paddr) ==>
      Fill(c, vaddr, paddr).lines[Slot(c.colour, p)] == c.lines[Slot(c.colour, p)]
  {
    HomeOfLine(c.colour, vaddr, paddr, 0);
  }

  lemma FillOthers(c: Cache, vaddr: nat, paddr: nat)
    requires c.Shaped() && Coherent(c) && Mapped(c.colour, vaddr, paddr)
    ensures forall x :: 0 <= x < LINES && Fill(c, vaddr, paddr).lines[x].valid ==> TagOk(c.colour, x, Fill(c, vaddr, paddr).lines[x])
  {
    HomeOfLine(c.colour, vaddr, paddr, 0);
    HomeIdentifies(c.colour, paddr);
    LineFits(paddr);
    hide LineIndex, Slot, PTag, HomeOf, LineStart;
  }

  /** Bringing the line in, with an eviction if needed, changes nothing the CPU sees. */
  lemma PrepIsInvisible(c: Cache, vaddr: nat, paddr: nat)
    requires c.Shaped() && Coherent(c) && Mapped(c.colour, vaddr, paddr)
    ensures var r := Prep(c, vaddr, paddr);
      && Coherent(r) && Holds(r, paddr)
      && forall p :: 0 <= p < RDRAM_SIZE ==> Seen(r, p) == Seen(c, p)
  {
    HomeOfLine(c.colour, vaddr, paddr, c.lines[LineIndex(vaddr)].ptag);
    var l := c.lines[LineIndex(vaddr)];
    if !(l.valid && l.ptag == PTag(paddr)) {
      assert l.valid ==> TagOk(c.colour, LineIndex(vaddr), l);
      hide LineIndex, Slot, PTag, HomeOf, LineStart, Coherent, Fill, Seen;
      if l.valid && l.dirty {
        WritebackKeepsCoherence(c, vaddr, paddr);
        WritebackLines(c, vaddr, paddr);
        forall p | 0 <= p < RDRAM_SIZE ensures Seen(Writeback(c, vaddr, paddr), p) == Seen(c, p) {
          WritebackByte(c, vaddr, paddr, p);
        }
        FillIsInvisible(Writeback(c, vaddr, paddr), vaddr, paddr);
      } else {
        FillIsInvisible(c, vaddr, paddr);
      }
    }
  }
}
