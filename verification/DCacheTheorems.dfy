/** The data cache is transparent: through any sequence of hits, evictions and
    write-backs the CPU sees one flat big-endian memory. */
module DCacheTheorems {
  import opened Swizzle
  import opened DCache

  /** The memory array the CPU sees. */
  function Flat(c: Cache): (m: Bytes)
    requires c.Shaped()
    ensures |m| == RDRAM_SIZE && forall p :: 0 <= p < RDRAM_SIZE ==> m[p] == Seen(c, p)
  {
    seq(RDRAM_SIZE, p requires 0 <= p < RDRAM_SIZE => Seen(c, p))
  }

  lemma SameFlat(c: Cache, d: Cache)
    requires c.Shaped() && d.Shaped() && forall p :: 0 <= p < RDRAM_SIZE ==> Seen(c, p) == Seen(d, p)
    ensures Flat(c) == Flat(d)
  {
    hide Seen;
  }

  /** An aligned access fits the memory. */
  lemma FlatFits(c: Cache, z: Size, paddr: nat)
    requires c.Shaped() && paddr < RDRAM_SIZE && InLine(paddr, z)
    ensures Fits(Flat(c), z, paddr)
  {
    AccessInLine(paddr, z);
    LineFits(paddr);
    var o := paddr % 16;
    assert o + Width(z) <= 16 by {
      OffsetEnds(o, z);
    }
  }

  lemma OffsetEnds(o: nat, z: Size)
    requires o < 16 && o % Width(z) == 0
    ensures o + Width(z) <= 16
  {
    match z
    case Byte =>
    case Half =>
    case Word =>
    case Dword =>
  }

  /** The line a held address is in, as a slice of the flat memory. */
  lemma HeldLine(c: Cache, paddr: nat)
    requires c.Shaped() && paddr < RDRAM_SIZE && Holds(c, paddr)
    ensures LineStart(paddr) + LINE_BYTES <= RDRAM_SIZE
    ensures c.lines[Slot(c.colour, paddr)].data == Flat(c)[LineStart(paddr)..LineStart(paddr) + LINE_BYTES]
  {
    LineFits(paddr);
    HomeIdentifies(c.colour, paddr);
    var s, x := LineStart(paddr), Slot(c.colour, paddr);
    hide LineIndex, Slot, PTag, HomeOf, LineStart;
    var l := c.lines[x];
    forall i | 0 <= i < LINE_BYTES ensures l.data[i] == Flat(c)[s..s + LINE_BYTES][i] {
      LineAddresses(c.colour, x, PTag(paddr), s + i);
    }
  }

  lemma SliceOfSlice(m: Bytes, s: nat, n: nat, o: nat, w: nat)
    requires s + n <= |m| && o + w <= n
    ensures m[s..s + n][o..o + w] == m[s + o..s + o + w]
  {
    var t := m[s..s + n];
    var a, b := t[o..o + w], m[s + o..s + o + w];
    forall i | 0 <= i < w ensures a[i] == b[i] {
      assert a[i] == t[o + i] == m[s + o + i];
    }
  }

  /** Reading within a line is reading the memory the line is a slice of. */
  lemma LineReadIsMemoryRead(l: Line, m: Bytes, z: Size, paddr: nat)
    requires |l.data| == LINE_BYTES && InLine(paddr, z) && Fits(m, z, paddr)
    requires LineStart(paddr) + LINE_BYTES <= |m| && l.data == m[LineStart(paddr)..LineStart(paddr) + LINE_BYTES]
    ensures LineRead(l, z, paddr) == ReadRaw(m, z, paddr)
  {
    AccessInLine(paddr, z);
    RawAddressFits(m, z, paddr);
    hide LineStart, RawAddress, ToRaw;
    SliceOfSlice(m, LineStart(paddr), LINE_BYTES, RawAddress(z, paddr % 16), Width(z));
  }

  /** A cached read returns what the flat memory holds and changes no byte seen. */
  lemma ReadIsTransparent(c: Cache, z: Size, vaddr: nat, paddr: nat)
    requires c.Shaped() && Coherent(c) && Mapped(c.colour, vaddr, paddr) && InLine(paddr, z)
    ensures Fits(Flat(c), z, paddr)
    ensures var (c', v) := Read(c, z, vaddr, paddr);
      Coherent(c') && Flat(c') == Flat(c) && v == ReadRaw(Flat(c), z, paddr)
  {
    FlatFits(c, z, paddr);
    PrepIsInvisible(c, vaddr, paddr);
    HomeOfLine(c.colour, vaddr, paddr, 0);
    var c' := Prep(c, vaddr, paddr);
    SameFlat(c, c');
    HeldLine(c', paddr);
    hide Prep, LineIndex, Slot, LineStart, Seen, Holds, LineRead, ReadRaw, Coherent;
    LineReadIsMemoryRead(c'.lines[LineIndex(vaddr)], Flat(c), z, paddr);
  }

  lemma LineWriteByte(l: Line, z: Size, paddr: nat, v: Bytes, o: nat)
    requires |l.data| == LINE_BYTES && InLine(paddr, z) && |v| == Width(z) && o < LINE_BYTES
    ensures
      var r := RawAddress(z, paddr % 16);
      LineWrite(l, z, paddr, v).data[o] == if r <= o < r + Width(z) then ToRaw(z, v)[o - r] else l.data[o]
  {
    AccessInLine(paddr, z);
    hide ToRaw, RawAddress;
  }

  lemma StoredSeen(c: Cache, z: Size, vaddr: nat, paddr: nat, v: Bytes, p: nat)
    requires c.Shaped() && Mapped(c.colour, vaddr, paddr) && InLine(paddr, z) && |v| == Width(z)
    requires Holds(c, paddr) && p < RDRAM_SIZE
    ensures
      var x := LineIndex(vaddr);
      var r := RawAddress(z, paddr);
      Seen(c.(lines := c.lines[x := LineWrite(c.lines[x], z, paddr, v)]), p) ==
        if r <= p < r + Width(z) then ToRaw(z, v)[p - r] else Seen(c, p)
  {
    HomeOfLine(c.colour, vaddr, paddr, 0);
    AccessInLine(paddr, z);
    var x := LineIndex(vaddr);
    var s := LineStart(paddr);
    HomeIdentifies(c.colour, paddr);
    if s <= p < s + LINE_BYTES {
      LineAddresses(c.colour, x, PTag(paddr), p);
      LineWriteByte(c.lines[x], z, paddr, v, p - s);
    } else {
      NotInLine(c.colour, x, PTag(paddr), p);
    }
    hide LineIndex, Slot, LineStart, PTag, HomeOf, ToRaw, RawAddress;
  }

  /** A cached write changes exactly the addressed bytes of the flat memory. */
  lemma WriteIsTransparent(c: Cache, z: Size, vaddr: nat, paddr: nat, v: Bytes)
    requires c.Shaped() && Coherent(c) && Mapped(c.colour, vaddr, paddr) && InLine(paddr, z) && |v| == Width(z)
    ensures Fits(Flat(c), z, paddr)
    ensures var c' := Write(c, z, vaddr, paddr, v);
      Coherent(c') && Flat(c') == WriteRaw(Flat(c), z, paddr, v)
  {
    FlatFits(c, z, paddr);
    PrepIsInvisible(c, vaddr, paddr);
    HomeOfLine(c.colour, vaddr, paddr, 0);
    RawAddressFits(Flat(c), z, paddr);
    var c1 := Prep(c, vaddr, paddr);
    var c' := Write(c, z, vaddr, paddr, v);
    var w := WriteRaw(Flat(c), z, paddr, v);
    StoreKeepsCoherence(c1, z, vaddr, paddr, v);
    hide Prep, LineIndex, Slot, LineStart, RawAddress, ToRaw, Seen, Holds, LineWrite, Coherent;
    forall p | 0 <= p < RDRAM_SIZE ensures Flat(c')[p] == w[p] {
      StoredSeen(c1, z, vaddr, paddr, v, p);
    }
  }

  lemma StoreKeepsCoherence(c: Cache, z: Size, vaddr: nat, paddr: nat, v: Bytes)
    requires c.Shaped() && Coherent(c) && Mapped(c.colour, vaddr, paddr) && InLine(paddr, z) && |v| == Width(z)
    requires Holds(c, paddr)
    ensures
      var x := LineIndex(vaddr);
      Coherent(c.(lines := c.lines[x := LineWrite(c.lines[x], z, paddr, v)]))
  {
    HomeOfLine(c.colour, vaddr, paddr, 0);
    AccessInLine(paddr, z);
    hide LineIndex, Slot, LineStart, PTag, HomeOf, ToRaw, RawAddress, WriteRaw;
    var x := LineIndex(vaddr);
    var d := c.(lines := c.lines[x := LineWrite(c.lines[x], z, paddr, v)]);
    forall p | 0 <= p < RDRAM_SIZE && Holds(d, p) && !d.lines[Slot(c.colour, p)].dirty
      ensures d.rdram[p] == Seen(d, p)
    {
      assert Slot(c.colour, p) != x && Holds(c, p) && Seen(d, p) == Seen(c, p);
    }
  }

  // ----- Cache instructions -----

  /** Whether the operation throws a held, dirty line away: the one case in which
      the CPU sees memory change. */
  predicate Discards(c: Cache, op: CacheOp, paddr: nat)
    requires c.Shaped()
  {
    op == HitInvalidate && Holds(c, paddr) && c.lines[Slot(c.colour, paddr)].dirty
  }

  lemma DropLine(c: Cache, x: nat, p: nat)
    requires c.Shaped() && x < LINES && p < RDRAM_SIZE
    ensures
      var r := c.(lines := c.lines[x := c.lines[x].(valid := false)]);
      && r.Shaped()
      && Seen(r, p) == (if Slot(c.colour, p) == x then c.rdram[p] else Seen(c, p))
      && (Holds(r, p) <==> Slot(c.colour, p) != x && Holds(c, p))
      && (Slot(c.colour, p) != x ==> r.lines[Slot(c.colour, p)] == c.lines[Slot(c.colour, p)])
  {
    hide LineIndex, Slot, PTag;
  }

  lemma DropKeepsCoherence(c: Cache, x: nat)
    requires c.Shaped() && Coherent(c) && x < LINES
    ensures Coherent(c.(lines := c.lines[x := c.lines[x].(valid := false)]))
  {
    hide LineIndex, Slot, PTag, HomeOf, Seen, Holds;
    var r := c.(lines := c.lines[x := c.lines[x].(valid := false)]);
    forall p | 0 <= p < RDRAM_SIZE && Holds(r, p) && !r.lines[Slot(c.colour, p)].dirty
      ensures r.rdram[p] == Seen(r, p)
    {
      DropLine(c, x, p);
    }
  }

  /** An operation by index needs only the offset within the page. */
  predicate OpMapped(f: Colouring, op: CacheOp, vaddr: nat, paddr: nat) {
    if op == IndexWritebackInvalidate then SameOffset(vaddr, paddr) else Mapped(f, vaddr, paddr)
  }

  /** The data-cache operations keep coherence and, byte by byte, what the CPU
      sees; only an invalidate without write-back of a held dirty line can show the
      older RDRAM bytes of that line. */
  lemma OperateByte(c: Cache, op: CacheOp, vaddr: nat, paddr: nat, p: nat)
    requires c.Shaped() && Coherent(c) && OpMapped(c.colour, op, vaddr, paddr) && p < RDRAM_SIZE
    ensures Coherent(Operate(c, op, vaddr, paddr))
    ensures Seen(Operate(c, op, vaddr, paddr), p) ==
      if Discards(c, op, paddr) && LineStart(p) == LineStart(paddr) then c.rdram[p] else Seen(c, p)
    ensures op == IndexWritebackInvalidate ==>
      var r := Operate(c, op, vaddr, paddr);
      && !r.lines[LineIndex(vaddr)].valid
      && (forall x :: 0 <= x < LINES && x != LineIndex(vaddr) ==> r.lines[x] == c.lines[x])
  {
    HomeOfAny(vaddr, paddr, c.lines[LineIndex(vaddr)].ptag);
    var x := LineIndex(vaddr);
    var l := c.lines[x];
    var hit := l.valid && (op == IndexWritebackInvalidate || l.ptag == PTag(paddr));
    if op != IndexWritebackInvalidate {
      HomeOfLine(c.colour, vaddr, paddr, l.ptag);
      SameLine(c.colour, p, paddr);
    }
    hide LineIndex, Slot, PTag, HomeOf, LineStart, Seen, Coherent, Writeback;
    if hit {
      if op == HitInvalidate {
        DropKeepsCoherence(c, x);
        DropLine(c, x, p);
        if Slot(c.colour, p) == x {
          CleanLineByte(c, x, p);
        }
        assert Slot(c.colour, p) == x && Holds(c, p) <==> LineStart(p) == LineStart(paddr);
      } else {
        LineHomeFits(c, x);
        WritebackKeepsCoherence(c, vaddr, paddr);
        WritebackLines(c, vaddr, paddr);
        WritebackByte(c, vaddr, paddr, p);
        var w := Writeback(c, vaddr, paddr);
        DropKeepsCoherence(w, x);
        DropLine(w, x, p);
        UnheldByte(c, p);
      }
    }
  }

  lemma SameLine(f: Colouring, p: nat, q: nat)
    requires p < RDRAM_SIZE && q < RDRAM_SIZE
    ensures LineStart(p) == LineStart(q) <==> Slot(f, p) == Slot(f, q) && PTag(p) == PTag(q)
  {
    HomeIdentifies(f, p);
    HomeIdentifies(f, q);
    if LineStart(p) == LineStart(q) {
      LineAddresses(f, Slot(f, q), PTag(q), p);
    }
  }

  lemma LineHomeFits(c: Cache, x: nat)
    requires c.Shaped() && Coherent(c) && x < LINES && c.lines[x].valid
    ensures HomeOf(x, c.lines[x].ptag) + LINE_BYTES <= RDRAM_SIZE
  {
    assert TagOk(c.colour, x, c.lines[x]);
  }

  lemma UnheldByte(c: Cache, p: nat)
    requires c.Shaped() && p < RDRAM_SIZE
    ensures !Holds(c, p) ==> Seen(c, p) == c.rdram[p]
  {}

  lemma CleanLineByte(c: Cache, x: nat, p: nat)
    requires c.Shaped() && Coherent(c) && x < LINES && p < RDRAM_SIZE && Slot(c.colour, p) == x
    ensures !(Holds(c, p) && c.lines[x].dirty) ==> c.rdram[p] == Seen(c, p)
  {}

  // ----- Whole runs -----

  datatype Op =
    | OpRead(z: Size, vaddr: nat, paddr: nat)
    | OpWrite(z: Size, vaddr: nat, paddr: nat, value: Bytes)
    | OpCache(op: CacheOp, vaddr: nat, paddr: nat)

  /** Accesses are aligned and in RDRAM; no line is invalidated without write-back. */
  predicate Sized(o: Op) {
    match o
    case OpRead(z, _, paddr) => InLine(paddr, z) && paddr < RDRAM_SIZE
    case OpWrite(z, _, paddr, value) => InLine(paddr, z) && paddr < RDRAM_SIZE && |value| == Width(z)
    case OpCache(op, _, _) => op != HitInvalidate
  }

  /** Each physical page is accessed under its one colour. */
  predicate OpOk(f: Colouring, o: Op) {
    Sized(o) && if o.OpCache? then OpMapped(f, o.op, o.vaddr, o.paddr) else Mapped(f, o.vaddr, o.paddr)
  }

  function Apply(c: Cache, o: Op): (r: Cache)
    requires c.Shaped() && Coherent(c) && OpOk(c.colour, o)
    ensures r.Shaped() && r.colour == c.colour
  {
    match o
    case OpRead(z, vaddr, paddr) => Read(c, z, vaddr, paddr).0
    case OpWrite(z, vaddr, paddr, value) => Write(c, z, vaddr, paddr, value)
    case OpCache(op, vaddr, paddr) => Operate(c, op, vaddr, paddr)
  }

  /** One operation on a plain big-endian memory. */
  function Plain(m: Bytes, o: Op): (r: Bytes)
    requires |m| == RDRAM_SIZE && Sized(o)
    ensures |r| == RDRAM_SIZE
  {
    match o
    case OpWrite(z, _, paddr, value) =>
      AlignedEnds(paddr, z);
      Patch(m, paddr, value)
    case _ => m
  }

  lemma AlignedEnds(paddr: nat, z: Size)
    requires paddr < RDRAM_SIZE && InLine(paddr, z)
    ensures paddr + Width(z) <= RDRAM_SIZE
  {
    AccessInLine(paddr, z);
    LineFits(paddr);
    OffsetEnds(paddr % 16, z);
  }

  function Memory(c: Cache): (m: Bytes)
    requires c.Shaped()
    ensures |m| == RDRAM_SIZE
  {
    BigEndian(Flat(c))
  }

  /** Each operation acts on the memory the CPU sees as on a plain memory, and a
      read returns that memory's bytes, most significant first. */
  lemma ActsOnPlainMemory(c: Cache, o: Op)
    requires c.Shaped() && Coherent(c) && OpOk(c.colour, o)
    ensures Coherent(Apply(c, o)) && Memory(Apply(c, o)) == Plain(Memory(c), o)
    ensures o.OpRead? ==>
      && o.paddr + Width(o.z) <= RDRAM_SIZE
      && Read(c, o.z, o.vaddr, o.paddr).1 == Memory(c)[o.paddr..o.paddr + Width(o.z)]
  {
    CoherentFits(c);
    hide Read, Write, Operate, Flat, Coherent, TagsFit, BigEndian, ReadRaw, WriteRaw, Seen, LineStart;
    match o
    case OpRead(z, vaddr, paddr) =>
      ReadIsTransparent(c, z, vaddr, paddr);
      ReadIsBigEndian(Flat(c), z, paddr);
      AlignedEnds(paddr, z);
    case OpWrite(z, vaddr, paddr, value) =>
      WriteIsTransparent(c, z, vaddr, paddr, value);
      WriteIsBigEndian(Flat(c), z, paddr, value);
    case OpCache(op, vaddr, paddr) =>
      forall p | 0 <= p < RDRAM_SIZE ensures Seen(Operate(c, op, vaddr, paddr), p) == Seen(c, p) {
        OperateByte(c, op, vaddr, paddr, p);
      }
      OperateByte(c, op, vaddr, paddr, 0);
      SameFlat(c, Operate(c, op, vaddr, paddr));
  }

  lemma CoherentFits(c: Cache)
    requires c.Shaped() && Coherent(c)
    ensures TagsFit(c)
  {}

  lemma StaysCoherent(c: Cache, o: Op)
    requires c.Shaped() && Coherent(c) && OpOk(c.colour, o)
    ensures Coherent(Apply(c, o))
  {
    hide Coherent, Apply, OpOk, Memory;
    ActsOnPlainMemory(c, o);
  }

  ghost function Run(c: Cache, ops: seq<Op>): (r: Cache)
    requires c.Shaped() && Coherent(c) && forall i :: 0 <= i < |ops| ==> OpOk(c.colour, ops[i])
    ensures r.Shaped() && Coherent(r) && r.colour == c.colour
    decreases |ops|
  {
    if ops == [] then c
    else
      StaysCoherent(c, ops[0]);
      Run(Apply(c, ops[0]), ops[1..])
  }

  function RunPlain(m: Bytes, ops: seq<Op>): (r: Bytes)
    requires |m| == RDRAM_SIZE && forall i :: 0 <= i < |ops| ==> Sized(ops[i])
    ensures |r| == RDRAM_SIZE
    decreases |ops|
  {
    if ops == [] then m else RunPlain(Plain(m, ops[0]), ops[1..])
  }

  /** After any run the CPU sees the bytes last written. */
  lemma {:induction false} CacheIsTransparent(c: Cache, ops: seq<Op>)
    requires c.Shaped() && Coherent(c) && forall i :: 0 <= i < |ops| ==> OpOk(c.colour, ops[i])
    ensures Memory(Run(c, ops)) == RunPlain(Memory(c), ops)
    decreases |ops|
  {
    hide Apply, Coherent, Plain, Memory;
    if ops != [] {
      ActsOnPlainMemory(c, ops[0]);
      CacheIsTransparent(Apply(c, ops[0]), ops[1..]);
    }
  }

  // ----- Flushing -----

  function PageOffset(a: nat): nat { a % 4096 }

  lemma OffsetOfOffset(a: nat)
    ensures SameOffset(a, PageOffset(a))
  {}

  /** Index_Write_Back_Invalidate on lines `x` and up. */
  ghost function FlushFrom(c: Cache, x: nat): (r: Cache)
    requires c.Shaped() && Coherent(c) && x <= LINES
    ensures r.Shaped() && r.colour == c.colour
    decreases LINES - x
  {
    if x == LINES then c
    else
      OffsetOfOffset(x * 16);
      OperateByte(c, IndexWritebackInvalidate, x * 16, PageOffset(x * 16), 0);
      FlushFrom(Operate(c, IndexWritebackInvalidate, x * 16, PageOffset(x * 16)), x + 1)
  }

  lemma {:induction false} FlushLines(c: Cache, x: nat)
    requires c.Shaped() && Coherent(c) && x <= LINES
    requires forall y :: 0 <= y < x ==> !c.lines[y].valid
    ensures
      var r := FlushFrom(c, x);
      && (forall y :: 0 <= y < LINES ==> !r.lines[y].valid)
      && forall p :: 0 <= p < RDRAM_SIZE ==> Seen(r, p) == Seen(c, p)
    decreases LINES - x
  {
    CoherentFits(c);
    hide Coherent, TagsFit, Operate, Seen, LineStart;
    if x < LINES {
      assert LineIndex(x * 16) == x;
      OffsetOfOffset(x * 16);
      hide LineIndex, Slot;
      var c' := Operate(c, IndexWritebackInvalidate, x * 16, PageOffset(x * 16));
      OperateByte(c, IndexWritebackInvalidate, x * 16, PageOffset(x * 16), 0);
      forall p | 0 <= p < RDRAM_SIZE ensures Seen(c', p) == Seen(c, p) {
        OperateByte(c, IndexWritebackInvalidate, x * 16, PageOffset(x * 16), p);
      }
      FlushLines(c', x + 1);
    }
  }

  /** Flushing all 512 lines leaves RDRAM equal to what the CPU saw. */
  lemma FlushWritesEverythingBack(c: Cache)
    requires c.Shaped() && Coherent(c)
    ensures FlushFrom(c, 0).rdram == Flat(c)
  {
    FlushLines(c, 0);
    var r := FlushFrom(c, 0);
    hide Coherent, FlushFrom, LineIndex, Slot, PTag;
    forall p | 0 <= p < RDRAM_SIZE ensures r.rdram[p] == Flat(c)[p] {
      assert !Holds(r, p);
      UnheldByte(r, p);
    }
  }

  // ----- Why one colour a page -----

  /** No line is valid. */
  predicate Cold(c: Cache)
    requires c.Shaped()
  {
    forall x :: 0 <= x < LINES ==> !c.lines[x].valid
  }

  /** A byte written through one virtual address and read through another of the other
      colour, both mapped to one physical address, is not seen: the read returns what
      RDRAM held. */
  lemma AliasesDisagree(c: Cache, vaddr: nat, alias: nat, paddr: nat, b: byte)
    requires c.Shaped() && Cold(c) && paddr < RDRAM_SIZE
    requires SameOffset(vaddr, paddr) && SameOffset(alias, paddr) && (vaddr / 4096) % 2 != (alias / 4096) % 2
    ensures TagsFit(c)
    ensures InLine(paddr, Byte)
    ensures
      var c' := Write(c, Byte, vaddr, paddr, [b]);
      TagsFit(c') && Fits(c.rdram, Byte, paddr) && Read(c', Byte, alias, paddr).1 == ReadRaw(c.rdram, Byte, paddr)
  {
    IndexParts(vaddr);
    IndexParts(alias);
    WrittenHome(vaddr, paddr);
    LineFits(paddr);
    ByteAddressFits(paddr, RDRAM_SIZE);
    AccessInLine(paddr, Byte);
    hide LineIndex, LineStart, HomeOf, PTag, RawAddress, ToRaw, WriteRaw;
    var s := LineStart(paddr);
    var l := Line(true, false, PTag(paddr), c.rdram[s..s + LINE_BYTES]);
    var w := LineWrite(l, Byte, paddr, [b]);
    var c' := Write(c, Byte, vaddr, paddr, [b]);
    assert c' == c.(lines := c.lines[LineIndex(vaddr) := w]);
    assert !c'.lines[LineIndex(alias)].valid;
    assert Prep(c', alias, paddr).lines[LineIndex(alias)] == l;
    LineReadIsMemoryRead(l, c.rdram, Byte, paddr);
  }

  lemma WrittenHome(vaddr: nat, paddr: nat)
    requires SameOffset(vaddr, paddr) && paddr < RDRAM_SIZE
    ensures HomeOf(LineIndex(vaddr), PTag(paddr)) + LINE_BYTES <= RDRAM_SIZE
  {
    HomeOfAny(vaddr, paddr, PTag(paddr));
    assert paddr == PTag(paddr) * 4096 + paddr % 4096;
    LineFits(paddr);
  }
}
