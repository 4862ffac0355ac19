/** What a program that writes display lists relies on: how long each command is, what the
    renderer gets from a list of commands, and which words a START and an END submit. */
module RdpMeaning {
  import opened RdpSpec

  // ----- Command lengths -----

  function Bit(n: nat, k: nat): nat
    requires k < 3
  {
    if k == 0 then n % 2 else if k == 1 then n / 2 % 2 else n / 4 % 2
  }

  /** The length of a command by its opcode. A triangle is 8 words, 4 more with depth, 16
      more with texture, 16 more with shade; a texture rectangle is 4, the others 2. */
  function ListedLength(op: nat): nat {
    if 8 <= op < 16 then 8 + 4 * Bit(op, 0) + 16 * Bit(op, 1) + 16 * Bit(op, 2)
    else if op == 0x24 || op == 0x25 then 4
    else 2
  }

  /** Bits 24 to 29 of a command's first word. */
  function OpcodeField(w: Word): nat { w / 0x100_0000 % 64 }

  lemma LengthIs(w: Word)
    ensures CommandLength(w) == ListedLength(OpcodeField(w))
  {
    var op := OpcodeField(w);
    if op == 8 {} else if op == 9 {} else if op == 10 {} else if op == 11 {} else if op == 12 {}
    else if op == 13 {} else if op == 14 {} else if op == 15 {} else {}
  }

  // ----- What a list does -----

  predicate WellFormed(c: Words) { c != [] && |c| == ListedLength(OpcodeField(c[0])) }

  /** Too few words for the command they begin. */
  predicate Incomplete(ws: Words) { ws == [] || |ws| < ListedLength(OpcodeField(ws[0])) }

  /** The commands that draw or set state: opcodes from 8 on. */
  function Rendered(cs: seq<Words>): seq<Words> {
    if cs == [] then []
    else (if cs[0] != [] && OpcodeField(cs[0][0]) >= 8 then [cs[0]] else []) + Rendered(cs[1..])
  }

  /** The commands among effects, in order. */
  function CommandsIn(es: seq<Effect>): seq<Words> {
    if es == [] then []
    else (match es[0] case Enqueued(c) => [c] case FullSync => []) + CommandsIn(es[1..])
  }

  predicate IsSync(e: Effect) { e.Enqueued? && e.command != [] && OpcodeField(e.command[0]) == 0x29 }

  /** Full syncs are raised directly after a Sync Full command is enqueued, and only then. */
  predicate SyncsFollow(es: seq<Effect>) {
    && (forall i :: 0 <= i < |es| && IsSync(es[i]) ==> i + 1 < |es| && es[i + 1] == FullSync)
    && (forall i :: 0 <= i < |es| && es[i] == FullSync ==> i > 0 && IsSync(es[i - 1]))
  }

  lemma {:induction false} CommandsInAppend(a: seq<Effect>, b: seq<Effect>)
    ensures CommandsIn(a + b) == CommandsIn(a) + CommandsIn(b)
  {
    if a == [] {
      assert a + b == b;
    } else {
      assert (a + b)[1..] == a[1..] + b;
      CommandsInAppend(a[1..], b);
    }
  }

  lemma SyncsFollowAppend(a: seq<Effect>, b: seq<Effect>)
    requires SyncsFollow(a) && SyncsFollow(b)
    ensures SyncsFollow(a + b)
  {
    hide IsSync;
    var es := a + b;
    forall i | 0 <= i < |es| && IsSync(es[i]) ensures i + 1 < |es| && es[i + 1] == FullSync {
      if i >= |a| {
        assert es[i] == b[i - |a|];
      }
    }
    forall i | 0 <= i < |es| && es[i] == FullSync ensures i > 0 && IsSync(es[i - 1]) {
      if i >= |a| {
        assert es[i] == b[i - |a|];
      }
    }
  }

  lemma OneCommand(c: Words)
    requires WellFormed(c)
    ensures SyncsFollow(EffectsOf(c))
    ensures CommandsIn(EffectsOf(c)) == if c != [] && OpcodeField(c[0]) >= 8 then [c] else []
  {
    assert [Enqueued(c)][1..] == [];
    assert [Enqueued(c), FullSync][1..] == [FullSync] && [FullSync][1..] == [];
  }

  lemma {:induction false} ListEffects(cs: seq<Words>)
    requires forall i :: 0 <= i < |cs| ==> WellFormed(cs[i])
    ensures CommandsIn(Effects(cs)) == Rendered(cs) && SyncsFollow(Effects(cs))
  {
    hide EffectsOf, SyncsFollow, WellFormed, CommandsIn, OpcodeField;
    if cs != [] {
      var rest := cs[1..];
      assert forall i :: 0 <= i < |rest| ==> rest[i] == cs[i + 1];
      OneCommand(cs[0]);
      ListEffects(rest);
      CommandsInAppend(EffectsOf(cs[0]), Effects(rest));
      SyncsFollowAppend(EffectsOf(cs[0]), Effects(rest));
      assert Effects(cs) == EffectsOf(cs[0]) + Effects(rest);
    } else {
      NoEffects();
    }
  }

  lemma NoEffects()
    ensures CommandsIn([]) == [] && SyncsFollow([])
  {}

  /** A list of commands followed by an incomplete one: the commands from opcode 8 on are
      enqueued, each whole and in order, with a full sync directly after each Sync Full;
      the incomplete one is carried over. */
  lemma StreamDoes(cs: seq<Words>, rest: Words)
    requires forall i :: 0 <= i < |cs| ==> WellFormed(cs[i])
    requires Incomplete(rest)
    ensures
      var es := StreamEffects(Flatten(cs) + rest);
      CommandsIn(es) == Rendered(cs) && SyncsFollow(es) && Rest(Flatten(cs) + rest) == rest
  {
    hide CommandLength, ListedLength, Effects, SyncsFollow, CommandsIn, Rendered;
    forall i | 0 <= i < |cs| ensures IsCommand(cs[i]) {
      LengthIs(cs[i][0]);
    }
    if rest != [] {
      LengthIs(rest[0]);
    }
    SplitIsUnique(cs, rest);
    ListEffects(cs);
  }

  // ----- What a START and an END submit -----

  /** An address with its low three bits and those from bit 24 on dropped. */
  lemma AlignedDown(value: nat)
    ensures AlignedAddress(value) % 8 == 0
    ensures AlignedAddress(value) <= value % 0x100_0000 < AlignedAddress(value) + 8
  {}

  /** The words fetched are those of RDRAM in order, or of RSP memory round its 4 KiB. */
  lemma FetchedWords(mem: Memory, xbus: bool, from: nat, to: nat, i: nat)
    requires mem.Valid() && (xbus || to <= 4 * RDRAM_WORDS) && from % 8 == 0
    requires from + 4 * i + 4 <= to
    ensures i < |Fetch(mem, xbus, from, to)|
    ensures !xbus ==> from / 4 + i < RDRAM_WORDS
    ensures Fetch(mem, xbus, from, to)[i] == if xbus then mem.dmem[(from / 4 + i) % 0x400] else mem.rdram[from / 4 + i]
  {
    hide WordAt;
    FetchedIndex(from, to, i);
    assert Fetch(mem, xbus, from, to)[i] == WordAt(mem, xbus, from + 4 * i);
    WordIs(mem, xbus, from + 4 * i, from / 4 + i);
  }

  lemma FetchedIndex(from: nat, to: nat, i: nat)
    requires from % 8 == 0 && from + 4 * i + 4 <= to
    ensures i < (to - from) / 4 && from + 4 * i == 4 * (from / 4 + i)
  {
    var m, n := from / 8, to - from;
    assert from == 4 * (2 * m);
    assert n >= 4 * (i + 1);
  }

  lemma WordIs(mem: Memory, xbus: bool, address: nat, k: nat)
    requires mem.Valid() && (xbus || address < 4 * RDRAM_WORDS) && address == 4 * k
    ensures !xbus ==> k < RDRAM_WORDS
    ensures WordAt(mem, xbus, address) == if xbus then mem.dmem[k % 0x400] else mem.rdram[k]
  {
    Quarter(k);
  }

  lemma Quarter(k: nat)
    ensures 4 * k % 0x1000 / 4 == k % 0x400
  {
    var q, r := k / 0x400, k % 0x400;
    assert 4 * k == 0x1000 * q + 4 * r;
  }

  /** STATUS: a flag both cleared and set ends set; the other registers stay. */
  lemma SetBeatsClear(d: Dpc, op: Op)
    requires op.WriteStatus?
    ensures
      var d' := Registers(d, op);
      && (op.setXbus ==> d'.xbus) && (!op.setXbus && op.clearXbus ==> !d'.xbus)
      && (!op.setXbus && !op.clearXbus ==> d'.xbus == d.xbus)
      && (op.setFreeze ==> d'.freeze) && (!op.setFreeze && op.clearFreeze ==> !d'.freeze)
      && (!op.setFreeze && !op.clearFreeze ==> d'.freeze == d.freeze)
      && d' == d.(xbus := d'.xbus, freeze := d'.freeze)
  {}

  /** START, a second START, END on a running processor: the list is what lies between the
      first START and the END, both rounded down to 8 bytes; it is consumed at once, and
      the next list may be started. */
  lemma StartEndSubmits(r: Rdp, mem: Memory, a: nat, ignored: nat, b: nat)
    requires mem.Valid() && !r.dpc.freeze && !r.dpc.startValid && !Whole(r.carry)
    requires r.dpc.xbus || AlignedAddress(b) <= 4 * RDRAM_WORDS
    requires InRange(r, WriteStart(a))
    ensures
      var r1 := Apply(r, WriteStart(a), mem);
      InRange(r1, WriteStart(ignored)) &&
      var r2 := Apply(r1, WriteStart(ignored), mem);
      InRange(r2, WriteEnd(b)) &&
      var r' := Apply(r2, WriteEnd(b), mem);
      var from, to := AlignedAddress(a), AlignedAddress(b);
      var ws := r.carry + Fetch(mem, r.dpc.xbus, from, to);
      && r'.log == r.log + StreamEffects(ws) && r'.carry == Rest(ws)
      && r'.dpc.start == from && r'.dpc.end == to && r'.dpc.current == (if from < to then to else from)
      && !r'.dpc.startValid && !r'.dpc.freeze && r'.dpc.xbus == r.dpc.xbus
  {
    hide Rest, StreamEffects, Fetch, Whole, AlignedAddress;
    var r1 := Apply(r, WriteStart(a), mem);
    assert r1 == r.(dpc := r.dpc.(start := AlignedAddress(a), startValid := true));
    var r2 := Apply(r1, WriteStart(ignored), mem);
    assert r2 == r1;
    ApplyConsumes(r2, WriteEnd(b), mem);
    NothingFetched(mem, r.dpc.xbus, AlignedAddress(a), AlignedAddress(b));
    assert Consumed(r2, WriteEnd(b), mem) == Fetch(mem, r.dpc.xbus, AlignedAddress(a), AlignedAddress(b));
  }

  lemma NothingFetched(mem: Memory, xbus: bool, from: nat, to: nat)
    requires mem.Valid() && (xbus || to <= 4 * RDRAM_WORDS)
    ensures to <= from ==> Fetch(mem, xbus, from, to) == []
  {}
}
