/** The data cache and RDRAM as they are updated in place. */
module DCacheUnit {
  import opened Swizzle
  import opened DCache
  import opened DCacheTheorems
  import opened DCacheEffects

  lemma OperationKeeps(c: Cache, op: CacheOp, vaddr: nat, paddr: nat)
    requires c.Shaped() && Coherent(c) && OpMapped(c.colour, op, vaddr, paddr)
    ensures Coherent(Operate(c, op, vaddr, paddr))
    ensures op != HitInvalidate ==> Memory(Operate(c, op, vaddr, paddr)) == Memory(c)
  {
    OperateByte(c, op, vaddr, paddr, 0);
    if op != HitInvalidate {
      ActsOnPlainMemory(c, OpCache(op, vaddr, paddr));
    }
  }

  class CacheUnit {
    const dcache: array<Line>
    const rdram: array<byte>
    /** Bit 12 of the virtual addresses each physical page is accessed through. */
    ghost const colour: Colouring

    ghost predicate Shaped()
      reads this, dcache
    {
      dcache.Length == LINES && rdram.Length == RDRAM_SIZE && forall x :: 0 <= x < LINES ==> |dcache[x].data| == LINE_BYTES
    }

    ghost function View(): (c: Cache)
      requires Shaped()
      reads this, dcache, rdram
      ensures c.Shaped()
    {
      Cache(dcache[..], rdram[..], colour)
    }

    ghost predicate Valid()
      reads this, dcache, rdram
    {
      Shaped() && Coherent(View())
    }

    /** Power-on: no line is valid. */
    constructor (contents: array<byte>, ghost pages: Colouring)
      requires contents.Length == RDRAM_SIZE
      ensures Valid() && rdram == contents && colour == pages && fresh(dcache)
      ensures Memory(View()) == BigEndian(contents[..])
    {
      dcache := new Line[LINES](_ => Line(false, false, 0, seq(LINE_BYTES, _ => 0)));
      rdram := contents;
      colour := pages;
      new;
      forall p | 0 <= p < RDRAM_SIZE ensures Flat(View())[p] == contents[..][p] {
        UnheldByte(View(), p);
      }
      assert Flat(View()) == contents[..];
    }

    /** The byte loop of a write-back. */
    method CopyLineOut(x: nat, start: nat)
      requires Shaped() && x < LINES && start + LINE_BYTES <= RDRAM_SIZE
      modifies rdram
      ensures rdram[..] == Patch(old(rdram[..]), start, dcache[x].data)
    {
      var i := 0;
      while i < LINE_BYTES
        invariant 0 <= i <= LINE_BYTES
        invariant forall p :: 0 <= p < RDRAM_SIZE ==>
          rdram[p] == if start <= p < start + i then dcache[x].data[p - start] else old(rdram[p])
      {
        rdram[start + i] := dcache[x].data[i];
        i := i + 1;
      }
    }

    /** Copies a line back to where its tag says it came from. */
    method WritebackDcache(vaddr: nat, paddr: nat)
      requires Shaped() && dcache[LineIndex(vaddr)].valid
      requires LineStart(dcache[LineIndex(vaddr)].ptag * 4096 + paddr % 4096) + LINE_BYTES <= RDRAM_SIZE
      modifies dcache, rdram
      ensures Shaped() && View() == Writeback(old(View()), vaddr, paddr)
    {
      var x := LineIndex(vaddr);
      var start := LineStart(dcache[x].ptag * 4096 + paddr % 4096);
      hide LineIndex, Slot, LineStart, Patch;
      CopyLineOut(x, start);
      dcache[x] := dcache[x].(dirty := false);
    }

    /** The miss path: loads the line holding `paddr`. */
    method LoadLine(vaddr: nat, paddr: nat)
      requires Shaped() && paddr < RDRAM_SIZE
      modifies dcache
      ensures Shaped() && View() == Fill(old(View()), vaddr, paddr)
    {
      LineFits(paddr);
      var x := LineIndex(vaddr);
      var start := LineStart(paddr);
      hide LineIndex, Slot, LineStart, PTag;
      var i := 0;
      while i < LINE_BYTES
        invariant 0 <= i <= LINE_BYTES && Shaped()
        invariant forall y :: 0 <= y < LINES && y != x ==> dcache[y] == old(dcache[y])
        invariant forall k :: 0 <= k < i ==> dcache[x].data[k] == rdram[start + k]
      {
        dcache[x] := dcache[x].(data := dcache[x].data[i := rdram[start + i]]);
        i := i + 1;
      }
      dcache[x] := dcache[x].(valid := true, dirty := false, ptag := PTag(paddr));
      assert dcache[x].data == rdram[..][start..start + LINE_BYTES];
    }

    method PrepDcacheLine(vaddr: nat, paddr: nat) returns (x: nat)
      requires Valid() && Mapped(colour, vaddr, paddr)
      modifies dcache, rdram
      ensures x == LineIndex(vaddr)
      ensures Valid() && View() == Prep(old(View()), vaddr, paddr)
      ensures Holds(View(), paddr) && Flat(View()) == old(Flat(View()))
    {
      ghost var was := View();
      PrepIsInvisible(was, vaddr, paddr);
      SameFlat(was, Prep(was, vaddr, paddr));
      HomeOfLine(colour, vaddr, paddr, dcache[LineIndex(vaddr)].ptag);
      x := LineIndex(vaddr);
      hide LineIndex, Slot, LineStart, PTag, Coherent, Flat, HomeOf, Writeback, Fill;
      var hit := dcache[x].valid && dcache[x].ptag == PTag(paddr);
      if dcache[x].valid && dcache[x].dirty && !hit {
        LineHomeFits(was, x);
        WritebackDcache(vaddr, paddr);
      }
      if !hit {
        LoadLine(vaddr, paddr);
      }
    }

    /** A sized cached read returns the big-endian bytes at `paddr` of the memory
        the CPU sees, and changes no byte of it. */
    method CacheRead(z: Size, vaddr: nat, paddr: nat) returns (v: Bytes)
      requires Valid() && Mapped(colour, vaddr, paddr) && InLine(paddr, z)
      modifies dcache, rdram
      ensures Valid() && View() == Read(old(View()), z, vaddr, paddr).0 && Memory(View()) == old(Memory(View()))
      ensures paddr + Width(z) <= RDRAM_SIZE && v == Memory(View())[paddr..paddr + Width(z)]
    {
      ActsOnPlainMemory(View(), OpRead(z, vaddr, paddr));
      hide LineIndex, Slot, LineStart, PTag, Coherent, Memory, Prep, LineRead;
      var x := PrepDcacheLine(vaddr, paddr);
      v := LineRead(dcache[x], z, paddr);
    }

    /** A sized cached write replaces exactly those bytes. */
    method CacheWrite(z: Size, vaddr: nat, paddr: nat, v: Bytes)
      requires Valid() && Mapped(colour, vaddr, paddr) && InLine(paddr, z) && |v| == Width(z)
      modifies dcache, rdram
      ensures paddr + |v| <= RDRAM_SIZE
      ensures Valid() && View() == Write(old(View()), z, vaddr, paddr, v)
      ensures Memory(View()) == Patch(old(Memory(View())), paddr, v)
    {
      ActsOnPlainMemory(View(), OpWrite(z, vaddr, paddr, v));
      AlignedEnds(paddr, z);
      ghost var after := Write(View(), z, vaddr, paddr, v);
      hide LineIndex, Slot, LineStart, PTag, Coherent, Memory, Prep, LineWrite, Patch;
      var x := PrepDcacheLine(vaddr, paddr);
      dcache[x] := LineWrite(dcache[x], z, paddr, v);
      assert View() == after;
    }

    /** The data-cache cases of the CACHE instruction. */
    method CacheOperation(op: CacheOp, vaddr: nat, paddr: nat)
      requires Valid() && OpMapped(colour, op, vaddr, paddr)
      modifies dcache, rdram
      ensures Valid() && View() == Operate(old(View()), op, vaddr, paddr)
      ensures Done(old(View()), op, vaddr, paddr, View())
      ensures op != HitInvalidate ==> Memory(View()) == old(Memory(View()))
    {
      ghost var was := View();
      OperationKeeps(was, op, vaddr, paddr);
      OperationEffect(was, op, vaddr, paddr);
      HomeOfAny(vaddr, paddr, dcache[LineIndex(vaddr)].ptag);
      var x := LineIndex(vaddr);
      hide LineIndex, Slot, LineStart, PTag, Coherent, Memory, HomeOf, Writeback, Done;
      if dcache[x].valid && (op == IndexWritebackInvalidate || dcache[x].ptag == PTag(paddr)) {
        if op != HitInvalidate {
          LineHomeFits(was, x);
          WritebackDcache(vaddr, paddr);
        }
        if op != HitWriteback {
          dcache[x] := dcache[x].(valid := false);
        }
      }
      assert View() == Operate(was, op, vaddr, paddr);
    }
  }
}
