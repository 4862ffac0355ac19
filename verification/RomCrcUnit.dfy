/** The CRC-32 routine with its lazily built table. */
module RomCrcUnit {
  import opened RomCrc

  /** An octet as an index, bit by bit, and back. */
  function Index(o: Octet): (n: nat)
    decreases o
  {
    if o == 0 then 0 else 2 * Index(o >> 1) + (if o & 1 == 1 then 1 else 0)
  }

  function FromIndex(n: nat): Octet {
    if n == 0 then 0 else (FromIndex(n / 2) << 1) | (if n % 2 == 1 then 1 else 0)
  }

  lemma Halved(o: Octet)
    ensures ((o >> 1) << 1) | (if o & 1 == 1 then 1 else 0) == o
  {}

  lemma {:induction false} IndexRoundTrip(o: Octet)
    ensures FromIndex(Index(o)) == o
    decreases o
  {
    if o != 0 {
      IndexRoundTrip(o >> 1);
      IndexPositive(o);
      var h := Index(o >> 1);
      assert Index(o) / 2 == h;
      Halved(o);
    }
  }

  lemma {:induction false} IndexPositive(o: Octet)
    ensures o != 0 ==> Index(o) > 0
    decreases o
  {
    if o != 0 {
      IndexPositive(o >> 1);
    }
  }

  predicate Within(o: Octet, p: Octet) { o & p == o }

  lemma {:induction false} IndexGrows(o: Octet, p: Octet)
    requires Within(o, p)
    ensures Index(o) <= Index(p)
    decreases p
  {
    if p != 0 {
      IndexGrows(o >> 1, p >> 1);
    }
  }

  lemma IndexBound(o: Octet)
    ensures Index(o) < 256
  {
    IndexGrows(o, 0xFF);
    assert Index(0x7) == 7;
    assert Index(0x3F) == 0x3F;
  }

  class Checksum {
    const table: array<Word>
    var haveTable: bool

    ghost predicate Valid()
      reads this, table
    {
      table.Length == 256 && (haveTable ==> forall k :: 0 <= k < 256 ==> table[k] == Entry(k))
    }

    constructor ()
      ensures Valid() && fresh(table)
    {
      table := new Word[256];
      haveTable := false;
    }

    method BuildTable()
      requires Valid()
      modifies this, table
      ensures Valid() && haveTable
    {
      hide Steps, Step, Wide, FromIndex;
      for i := 0 to 256
        invariant forall k :: 0 <= k < i ==> table[k] == Entry(k)
      {
        label Row:
        var rem := Wide(FromIndex(i));
        StepsNone(rem);
        for j := 0 to 8
          invariant table[..] == old@Row(table[..]) && rem == Steps(Wide(FromIndex(i)), j)
        {
          StepsLast(Wide(FromIndex(i)), j);
          rem := Step(rem);
        }
        table[i] := rem;
      }
      haveTable := true;
    }

    /** The CRC-32 of `buf` continuing from `c`, a table lookup a byte. */
    method Crc32(c: Word, buf: array<Octet>) returns (r: Word)
      requires Valid()
      modifies this, table
      ensures Valid() && r == Crc(c, buf[..])
    {
      if !haveTable {
        BuildTable();
      }
      hide *;
      r := Not(c);
      SerialNone(r);
      for i := 0 to buf.Length
        invariant table.Length == 256 && forall k :: 0 <= k < 256 ==> table[k] == Entry(k)
        invariant r == Serial(Not(c), BufferBits(buf[..i]))
      {
        var x := XorOctet(LowOctet(r), buf[i]);
        IndexBound(x);
        EntryIs(x);
        TableForm(r, buf[i]);
        SerialGrows(Not(c), buf[..i + 1]);
        assert buf[..i + 1][..i] == buf[..i];
        r := Plus(Shift8(r), table[Index(x)]);
      }
      CrcForm(c, buf[..]);
      assert buf[..buf.Length] == buf[..];
      r := Not(r);
    }
  }

  /** The table's entry for index `k`. */
  function Entry(k: nat): Word { Steps(Wide(FromIndex(k)), 8) }

  lemma EntryIs(x: Octet)
    ensures Entry(Index(x)) == Steps(Wide(x), 8)
  {
    IndexRoundTrip(x);
    hide Steps, Index, FromIndex, Wide;
  }

  lemma TableForm(c: Word, o: Octet)
    ensures Plus(Shift8(c), Steps(Wide(XorOctet(LowOctet(c), o)), 8)) == Serial(c, OctetBits(o))
  {
    TableStepIsSerial(c, o);
    hide Plus, Shift8, Steps, Wide, XorOctet, LowOctet, Serial;
  }

  lemma StepsNone(c: Word)
    ensures Steps(c, 0) == c
  {}

  lemma SerialNone(c: Word)
    ensures Serial(c, BufferBits([])) == c
  {}

  lemma SerialGrows(c: Word, buf: seq<Octet>)
    requires buf != []
    ensures Serial(c, BufferBits(buf)) == Serial(Serial(c, BufferBits(buf[..|buf| - 1])), OctetBits(buf[|buf| - 1]))
  {
    SerialSplit(c, BufferBits(buf[..|buf| - 1]), OctetBits(buf[|buf| - 1]));
  }

  lemma CrcForm(c: Word, buf: seq<Octet>)
    ensures Crc(c, buf) == Not(Serial(Not(c), BufferBits(buf)))
  {}
}
