/** What each access and each operation of the CACHE instruction does to RDRAM and to the
    lines, byte by byte and flag by flag. */
module DCacheEffects {
  import opened Swizzle
  import opened DCache
  import opened DCacheTheorems

  /** The operation finds its line: any valid line by index, else a line that holds the
      physical page. */
  predicate Selects(c: Cache, op: CacheOp, vaddr: nat, paddr: nat)
    requires c.Shaped()
  {
    var l := c.lines[(vaddr / 16) % 512];
    l.valid && (op == IndexWritebackInvalidate || l.ptag == paddr / 4096)
  }

  /** Where the line selected by an operation starts in RDRAM. */
  function SelectedStart(c: Cache, op: CacheOp, vaddr: nat, paddr: nat): nat
    requires c.Shaped()
  {
    var x := (vaddr / 16) % 512;
    if op == IndexWritebackInvalidate then c.lines[x].ptag * 4096 + (x % 256) * 16 else paddr - paddr % 16
  }

  /** RDRAM holds what the CPU saw on the 16 bytes from `start`, and is as it was
      elsewhere. */
  ghost predicate StoredLine(c: Cache, r: Cache, start: nat)
    requires c.Shaped()
  {
    forall p :: 0 <= p < RDRAM_SIZE ==> r.rdram[p] == if start <= p < start + 16 then Seen(c, p) else c.rdram[p]
  }

  /** Only line `x` may differ. */
  predicate OthersKept(c: Cache, r: Cache, x: nat)
    requires c.Shaped() && r.Shaped()
  {
    forall y :: 0 <= y < LINES && y != x ==> r.lines[y] == c.lines[y]
  }

  ghost predicate Done(c: Cache, op: CacheOp, vaddr: nat, paddr: nat, r: Cache)
    requires c.Shaped() && r.Shaped()
  {
    var x := (vaddr / 16) % 512;
    if !Selects(c, op, vaddr, paddr) then r == c
    else
      && OthersKept(c, r, x)
      && r.lines[x].ptag == c.lines[x].ptag && r.lines[x].data == c.lines[x].data
      && (r.lines[x].valid <==> op == HitWriteback)
      && (if op == HitInvalidate then r.rdram == c.rdram
          else !r.lines[x].dirty && StoredLine(c, r, SelectedStart(c, op, vaddr, paddr)))
  }

  /** A selected line's bytes are those from its start. */
  lemma SelectedBytes(c: Cache, op: CacheOp, vaddr: nat, paddr: nat, p: nat)
    requires c.Shaped() && Coherent(c) && OpMapped(c.colour, op, vaddr, paddr) && p < RDRAM_SIZE
    requires Selects(c, op, vaddr, paddr)
    ensures
      var start := SelectedStart(c, op, vaddr, paddr);
      start <= p < start + 16 <==> Slot(c.colour, p) == LineIndex(vaddr) && Holds(c, p)
  {
    var x := LineIndex(vaddr);
    var t := c.lines[x].ptag;
    assert TagOk(c.colour, x, c.lines[x]);
    HomeOfAny(vaddr, paddr, t);
    if op != IndexWritebackInvalidate {
      HomeOfLine(c.colour, vaddr, paddr, t);
      HomeIdentifies(c.colour, paddr);
    }
    assert SelectedStart(c, op, vaddr, paddr) == HomeOf(x, t);
    hide Coherent, Slot, PTag, HomeOf, LineIndex, LineStart, SelectedStart, Selects, OpMapped;
    if HomeOf(x, t) <= p < HomeOf(x, t) + LINE_BYTES {
      LineAddresses(c.colour, x, t, p);
    } else {
      NotInLine(c.colour, x, t, p);
    }
  }

  lemma WritebackStores(c: Cache, op: CacheOp, vaddr: nat, paddr: nat)
    requires c.Shaped() && Coherent(c) && OpMapped(c.colour, op, vaddr, paddr)
    requires Selects(c, op, vaddr, paddr)
    requires LineStart(c.lines[LineIndex(vaddr)].ptag * 4096 + paddr % 4096) + LINE_BYTES <= RDRAM_SIZE
    ensures StoredLine(c, Writeback(c, vaddr, paddr), SelectedStart(c, op, vaddr, paddr))
  {
    hide Coherent, Slot, PTag, SelectedStart, Seen, Holds, Writeback;
    forall p | 0 <= p < RDRAM_SIZE
      ensures
        var start := SelectedStart(c, op, vaddr, paddr);
        Writeback(c, vaddr, paddr).rdram[p] == if start <= p < start + 16 then Seen(c, p) else c.rdram[p]
    {
      SelectedBytes(c, op, vaddr, paddr, p);
      WritebackByte(c, vaddr, paddr, p);
    }
  }

  /** Both write-backs and the write-back by index leave the selected line's memory in
      RDRAM; Hit_Write_Back leaves the line valid and clean, the others invalid;
      Hit_Invalidate leaves RDRAM; a miss changes nothing. */
  lemma OperationEffect(c: Cache, op: CacheOp, vaddr: nat, paddr: nat)
    requires c.Shaped() && Coherent(c) && OpMapped(c.colour, op, vaddr, paddr)
    ensures Done(c, op, vaddr, paddr, Operate(c, op, vaddr, paddr))
  {
    HomeOfAny(vaddr, paddr, c.lines[LineIndex(vaddr)].ptag);
    if Selects(c, op, vaddr, paddr) && op != HitInvalidate {
      LineHomeFits(c, LineIndex(vaddr));
      WritebackStores(c, op, vaddr, paddr);
      WritebackLines(c, vaddr, paddr);
      hide Coherent, Slot, HomeOf, Writeback, Seen, LineStart;
    }
  }

  // ----- Accesses -----

  /** Bringing a line in: nothing happens on a hit; on a miss the line becomes valid and
      clean with the page's tag, and only a replaced dirty line's bytes reach RDRAM. */
  lemma PrepEffect(c: Cache, vaddr: nat, paddr: nat)
    requires c.Shaped() && Coherent(c) && Mapped(c.colour, vaddr, paddr)
    ensures
      var r := Prep(c, vaddr, paddr);
      var x := (vaddr / 16) % 512;
      var l := c.lines[x];
      if l.valid && l.ptag == paddr / 4096 then r == c
      else
        && OthersKept(c, r, x)
        && r.lines[x].valid && !r.lines[x].dirty && r.lines[x].ptag == paddr / 4096
        && (if l.valid && l.dirty then StoredLine(c, r, l.ptag * 4096 + (x % 256) * 16) else r.rdram == c.rdram)
  {
    var l := c.lines[LineIndex(vaddr)];
    HomeOfAny(vaddr, paddr, l.ptag);
    if l.valid && l.ptag != PTag(paddr) && l.dirty {
      LineHomeFits(c, LineIndex(vaddr));
      WritebackStores(c, IndexWritebackInvalidate, vaddr, paddr);
      WritebackLines(c, vaddr, paddr);
      hide Coherent, Slot, HomeOf, Writeback, Seen, LineStart;
    }
  }

  /** A write stays in the cache: it marks its line dirty and moves RDRAM no more than
      bringing the line in did. */
  lemma WriteEffect(c: Cache, z: Size, vaddr: nat, paddr: nat, v: Bytes)
    requires c.Shaped() && Coherent(c) && Mapped(c.colour, vaddr, paddr) && InLine(paddr, z) && |v| == Width(z)
    ensures
      var r := Write(c, z, vaddr, paddr, v);
      var x := (vaddr / 16) % 512;
      && OthersKept(Prep(c, vaddr, paddr), r, x)
      && r.rdram == Prep(c, vaddr, paddr).rdram
      && r.lines[x].valid && r.lines[x].dirty && r.lines[x].ptag == paddr / 4096
  {
    PrepIsInvisible(c, vaddr, paddr);
    PrepEffect(c, vaddr, paddr);
    hide Coherent, Slot, HomeOf, Seen, LineStart, Prep, StoredLine;
  }
}
