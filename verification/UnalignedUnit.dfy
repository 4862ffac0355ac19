/** The unaligned accesses as the CPU makes them: a cached access to the aligned cell
    and a merge. */
module UnalignedUnit {
  import opened Swizzle
  import opened DCache
  import opened DCacheTheorems
  import opened DCacheUnit
  import opened ByteCells
  import opened Unaligned

  function Low(reg: bv64): bv32 { (reg & 0xFFFF_FFFF) as bv32 }

  predicate Negative(w: bv32) { w & 0x8000_0000 != 0 }

  function SignExtend(w: bv32): bv64 { if Negative(w) then 0xFFFF_FFFF_0000_0000 | (w as bv64) else w as bv64 }

  /** A sign-extended register still holds the word. */
  lemma LowOfSignExtended(w: bv32)
    ensures Low(SignExtend(w)) == w
  {
    LowOfWord(w);
    LowOfOnes(w);
    hide Low, Negative;
  }

  lemma LowBits(w: bv32)
    ensures ((w as bv64) & 0xFFFF_FFFF) as bv32 == w
    ensures ((0xFFFF_FFFF_0000_0000 | (w as bv64)) & 0xFFFF_FFFF) as bv32 == w
  {}

  lemma LowOfWord(w: bv32)
    ensures Low(w as bv64) == w
  {
    LowBits(w);
  }

  lemma LowOfOnes(w: bv32)
    ensures Low(0xFFFF_FFFF_0000_0000 | (w as bv64)) == w
  {
    LowBits(w);
  }

  lemma CellIsMapped(f: Colouring, n: nat, vaddr: nat, paddr: nat)
    requires (n == 4 || n == 8) && Mapped(f, vaddr, paddr)
    ensures Mapped(f, Base(n, vaddr), Base(n, paddr)) && Base(n, paddr) % n == 0
    ensures Base(n, paddr) + n <= RDRAM_SIZE
    ensures Offset(n, vaddr) == Offset(n, paddr)
  {
    hide Base, Offset;
    CellInPage(n, vaddr);
    CellInPage(n, paddr);
    CellFits(n, paddr);
  }

  lemma CellFits(n: nat, paddr: nat)
    requires (n == 4 || n == 8) && paddr < RDRAM_SIZE
    ensures Base(n, paddr) % n == 0 && Base(n, paddr) + n <= RDRAM_SIZE
  {
    if n == 4 {
      Fits4(paddr / 4);
    } else {
      Fits8(paddr / 8);
    }
  }

  lemma CellAccess(f: Colouring, n: nat, z: Size, vaddr: nat, paddr: nat, m: Bytes)
    requires (n == 4 && z == Word) || (n == 8 && z == Dword)
    requires Mapped(f, vaddr, paddr) && |m| == RDRAM_SIZE
    ensures Mapped(f, Base(n, vaddr), Base(n, paddr)) && InLine(Base(n, paddr), z) && InMemory(n, m, paddr)
    ensures Base(n, paddr) + n <= RDRAM_SIZE && Width(z) == n && Offset(n, vaddr) == Offset(n, paddr)
  {
    CellIsMapped(f, n, vaddr, paddr);
  }

  lemma Fits4(q: nat)
    ensures 4 * q % 4 == 0 && (4 * q < RDRAM_SIZE ==> 4 * q + 4 <= RDRAM_SIZE)
  {}

  lemma Fits8(q: nat)
    ensures 8 * q % 8 == 0 && (8 * q < RDRAM_SIZE ==> 8 * q + 8 <= RDRAM_SIZE)
  {}

  /** Cells do not straddle a page. */
  lemma CellInPage(n: nat, a: nat)
    requires n == 4 || n == 8
    ensures Offset(n, a) == Offset(n, a % 4096)
    ensures Base(n, a) % 4096 == Base(n, a % 4096) && Base(n, a) / 4096 == a / 4096
  {
    var f, r := a / 4096, a % 4096;
    assert a == 4096 * f + r;
    if n == 4 {
      InPage4(a, f, r / 4, r % 4);
    } else {
      InPage8(a, f, r / 8, r % 8);
    }
  }

  lemma InPage4(a: nat, f: nat, q: nat, k: nat)
    requires q < 1024 && k < 4 && a == 4096 * f + 4 * q + k
    ensures Offset(4, a) == k && Offset(4, 4 * q + k) == k
    ensures Base(4, a) % 4096 == 4 * q && Base(4, a) / 4096 == f
  {
    RemainderBy4(a, 1024 * f + q, k);
    RemainderBy4(4 * q + k, q, k);
    PageOf(Base(4, a), f, 4 * q);
  }

  lemma InPage8(a: nat, f: nat, q: nat, k: nat)
    requires q < 512 && k < 8 && a == 4096 * f + 8 * q + k
    ensures Offset(8, a) == k && Offset(8, 8 * q + k) == k
    ensures Base(8, a) % 4096 == 8 * q && Base(8, a) / 4096 == f
  {
    RemainderBy8(a, 512 * f + q, k);
    RemainderBy8(8 * q + k, q, k);
    PageOf(Base(8, a), f, 8 * q);
  }

  lemma RemainderBy4(a: nat, m: nat, k: nat)
    requires k < 4 && a == 4 * m + k
    ensures Offset(4, a) == k
  {}

  lemma RemainderBy8(a: nat, m: nat, k: nat)
    requires k < 8 && a == 8 * m + k
    ensures Offset(8, a) == k
  {}

  lemma PageOf(b: nat, f: nat, x: nat)
    requires x < 4096 && b == 4096 * f + x
    ensures b % 4096 == x && b / 4096 == f
  {}

  // ----- One access on memory -----

  lemma WordStored(s: Side, m: Bytes, a: nat, reg: bv32)
    requires InMemory(4, m, a)
    ensures
      var data := WordOf(m[Base(4, a)..Base(4, a) + 4]);
      Patch(m, Base(4, a), WordBytes(StoreWord(s, reg, data, Offset(4, a)))) == Store(s, 4, m, a, WordBytes(reg))
  {
    hide WordBytes, WordOf, StoreWord, Stored, Patch, Base, Offset;
    var b := m[Base(4, a)..Base(4, a) + 4];
    WordIsItsBytes(WordOf(b), b);
    WordSplices(s, reg, WordOf(b), Offset(4, a));
  }

  lemma WordLoaded(s: Side, m: Bytes, a: nat, reg: bv32)
    requires InMemory(4, m, a)
    ensures
      var data := WordOf(m[Base(4, a)..Base(4, a) + 4]);
      WordBytes(LoadWord(s, reg, data, Offset(4, a))) == Load(s, 4, m, a, WordBytes(reg))
  {
    hide WordBytes, WordOf, LoadWord, Loaded, Base, Offset;
    var b := m[Base(4, a)..Base(4, a) + 4];
    WordIsItsBytes(WordOf(b), b);
    WordSplices(s, reg, WordOf(b), Offset(4, a));
  }

  lemma DwordStored(s: Side, m: Bytes, a: nat, reg: bv64)
    requires InMemory(8, m, a)
    ensures
      var data := DwordOf(m[Base(8, a)..Base(8, a) + 8]);
      Patch(m, Base(8, a), DwordBytes(StoreDword(s, reg, data, Offset(8, a)))) == Store(s, 8, m, a, DwordBytes(reg))
  {
    hide DwordBytes, DwordOf, StoreDword, Stored, Patch, Base, Offset;
    var b := m[Base(8, a)..Base(8, a) + 8];
    DwordIsItsBytes(DwordOf(b), b);
    DwordSplices(s, reg, DwordOf(b), Offset(8, a));
  }

  lemma DwordLoaded(s: Side, m: Bytes, a: nat, reg: bv64)
    requires InMemory(8, m, a)
    ensures
      var data := DwordOf(m[Base(8, a)..Base(8, a) + 8]);
      DwordBytes(LoadDword(s, reg, data, Offset(8, a))) == Load(s, 8, m, a, DwordBytes(reg))
  {
    hide DwordBytes, DwordOf, LoadDword, Loaded, Base, Offset;
    var b := m[Base(8, a)..Base(8, a) + 8];
    DwordIsItsBytes(DwordOf(b), b);
    DwordSplices(s, reg, DwordOf(b), Offset(8, a));
  }

  // ----- The instructions -----

  /** SWL and SWR. */
  method StoreWordPart(s: Side, u: CacheUnit, vaddr: nat, paddr: nat, reg: bv64)
    requires u.Valid() && Mapped(u.colour, vaddr, paddr)
    modifies u.dcache, u.rdram
    ensures u.Valid() && InMemory(4, old(Memory(u.View())), paddr)
    ensures Memory(u.View()) == Store(s, 4, old(Memory(u.View())), paddr, WordBytes(Low(reg)))
  {
    ghost var m := Memory(u.View());
    hide *;
    CellAccess(u.colour, 4, Word, vaddr, paddr, m);
    WordStored(s, m, paddr, Low(reg));
    var b := u.CacheRead(Word, Base(4, vaddr), Base(4, paddr));
    assert b == m[Base(4, paddr)..Base(4, paddr) + 4];
    var d := WordBytes(StoreWord(s, Low(reg), WordOf(b), Offset(4, vaddr)));
    u.CacheWrite(Word, Base(4, vaddr), Base(4, paddr), d);
  }

  /** LWL and LWR. */
  method LoadWordPart(s: Side, u: CacheUnit, vaddr: nat, paddr: nat, reg: bv64) returns (r: bv64)
    requires u.Valid() && Mapped(u.colour, vaddr, paddr)
    modifies u.dcache, u.rdram
    ensures u.Valid() && InMemory(4, Memory(u.View()), paddr)
    ensures Memory(u.View()) == old(Memory(u.View()))
    ensures WordBytes(Low(r)) == Load(s, 4, Memory(u.View()), paddr, WordBytes(Low(reg)))
    ensures r == SignExtend(Low(r))
  {
    ghost var m := Memory(u.View());
    hide *;
    CellAccess(u.colour, 4, Word, vaddr, paddr, m);
    WordLoaded(s, m, paddr, Low(reg));
    var b := u.CacheRead(Word, Base(4, vaddr), Base(4, paddr));
    assert b == m[Base(4, paddr)..Base(4, paddr) + 4];
    var w := LoadWord(s, Low(reg), WordOf(b), Offset(4, vaddr));
    LowOfSignExtended(w);
    r := SignExtend(w);
  }

  /** SDL and SDR. */
  method StoreDwordPart(s: Side, u: CacheUnit, vaddr: nat, paddr: nat, reg: bv64)
    requires u.Valid() && Mapped(u.colour, vaddr, paddr)
    modifies u.dcache, u.rdram
    ensures u.Valid() && InMemory(8, old(Memory(u.View())), paddr)
    ensures Memory(u.View()) == Store(s, 8, old(Memory(u.View())), paddr, DwordBytes(reg))
  {
    ghost var m := Memory(u.View());
    hide *;
    CellAccess(u.colour, 8, Dword, vaddr, paddr, m);
    DwordStored(s, m, paddr, reg);
    var b := u.CacheRead(Dword, Base(8, vaddr), Base(8, paddr));
    assert b == m[Base(8, paddr)..Base(8, paddr) + 8];
    var d := DwordBytes(StoreDword(s, reg, DwordOf(b), Offset(8, vaddr)));
    u.CacheWrite(Dword, Base(8, vaddr), Base(8, paddr), d);
  }

  /** LDL and LDR. */
  method LoadDwordPart(s: Side, u: CacheUnit, vaddr: nat, paddr: nat, reg: bv64) returns (r: bv64)
    requires u.Valid() && Mapped(u.colour, vaddr, paddr)
    modifies u.dcache, u.rdram
    ensures u.Valid() && InMemory(8, Memory(u.View()), paddr)
    ensures Memory(u.View()) == old(Memory(u.View()))
    ensures DwordBytes(r) == Load(s, 8, Memory(u.View()), paddr, DwordBytes(reg))
  {
    ghost var m := Memory(u.View());
    hide *;
    CellAccess(u.colour, 8, Dword, vaddr, paddr, m);
    DwordLoaded(s, m, paddr, reg);
    var b := u.CacheRead(Dword, Base(8, vaddr), Base(8, paddr));
    assert b == m[Base(8, paddr)..Base(8, paddr) + 8];
    r := LoadDword(s, reg, DwordOf(b), Offset(8, vaddr));
  }

  /** A word stored with SWL and SWR at any address comes back through LWR and LWL,
      sign-extended, and through the cache no other byte has moved. */
  method StoreThenLoadWord(u: CacheUnit, vaddr: nat, paddr: nat, reg: bv64, junk: bv64) returns (r: bv64)
    requires u.Valid() && Mapped(u.colour, vaddr, paddr) && Mapped(u.colour, vaddr + 3, paddr + 3)
    modifies u.dcache, u.rdram
    ensures paddr + 4 <= RDRAM_SIZE && u.Valid()
    ensures Memory(u.View()) == Patch(old(Memory(u.View())), paddr, WordBytes(Low(reg)))
    ensures r == SignExtend(Low(reg))
  {
    hide WordBytes, Low, SignExtend, Memory, Patch, Base, Store, Load;
    ghost var m := Memory(u.View());
    ghost var w := WordBytes(Low(reg));
    StoreWordPart(Left, u, vaddr, paddr, reg);
    StoreWordPart(Right, u, vaddr + 3, paddr + 3, reg);
    assert InMemory(4, m, paddr) && InMemory(4, m, paddr + 3);
    StorePair(4, m, paddr, w);
    r := LoadWordPart(Right, u, vaddr + 3, paddr + 3, junk);
    r := LoadWordPart(Left, u, vaddr, paddr, r);
    LoadPair(4, Patch(m, paddr, w), paddr, WordBytes(Low(junk)));
    PatchedSlice(m, paddr, w);
    WordIsItsBytes(Low(r), w);
    WordIsItsBytes(Low(reg), w);
  }

  lemma PatchedSlice(m: Bytes, a: nat, v: Bytes)
    requires a + |v| <= |m|
    ensures Patch(m, a, v)[a..a + |v|] == v
  {}
}
