/** The RDP command stream: how words group into commands, and what the DPC
    registers do to the stream between writes. */
module RdpSpec {

  type Word = w: nat | w < 0x1_0000_0000

  type Words = seq<Word>

  const MAX_COMMAND: nat := 44
  const BUFFER_SIZE: nat := 0xFFFFF
  const RDRAM_WORDS: nat := 0x200000
  const DMEM_WORDS: nat := 0x400

  function Opcode(w: Word): nat { (w / 0x100_0000) % 64 }

  /** Length in words of the command that starts with `w`. */
  function CommandLength(w: Word): (n: nat)
    ensures 2 <= n <= MAX_COMMAND && n % 2 == 0
  {
    match Opcode(w)
    case 8 => 8
    case 9 => 12
    case 10 => 24
    case 11 => 28
    case 12 => 24
    case 13 => 28
    case 14 => 40
    case 15 => 44
    case 36 => 4
    case 37 => 4
    case _ => 2
  }

  const FULL_SYNC: nat := 0x29

  // ----- Splitting a stream at once -----

  predicate Whole(ws: Words) { ws != [] && CommandLength(ws[0]) <= |ws| }

  /** The complete commands at the front of a stream. */
  function Commands(ws: Words): (cs: seq<Words>)
    decreases |ws|
  {
    if Whole(ws) then [ws[..CommandLength(ws[0])]] + Commands(ws[CommandLength(ws[0])..]) else []
  }

  /** What is left after them: less than one command. */
  function Rest(ws: Words): (rest: Words)
    ensures !Whole(rest) && |rest| < MAX_COMMAND
    decreases |ws|
  {
    if Whole(ws) then Rest(ws[CommandLength(ws[0])..]) else ws
  }

  function Flatten(cs: seq<Words>): Words {
    if cs == [] then [] else cs[0] + Flatten(cs[1..])
  }

  predicate IsCommand(c: Words) { c != [] && |c| == CommandLength(c[0]) }

  datatype Effect = Enqueued(command: Words) | FullSync

  /** Commands below 8 are skipped; a full sync is also enqueued. */
  function EffectsOf(c: Words): seq<Effect> {
    if c == [] then []
    else
      (if Opcode(c[0]) >= 8 then [Enqueued(c)] else []) + (if Opcode(c[0]) == FULL_SYNC then [FullSync] else [])
  }

  function Effects(cs: seq<Words>): seq<Effect> {
    if cs == [] then [] else EffectsOf(cs[0]) + Effects(cs[1..])
  }

  lemma {:induction false} CommandsWellFormed(ws: Words)
    ensures forall c :: c in Commands(ws) ==> IsCommand(c)
    ensures ws == Flatten(Commands(ws)) + Rest(ws)
    decreases |ws|
  {
    if Whole(ws) {
      CommandsWellFormed(ws[CommandLength(ws[0])..]);
    }
  }

  /** The split is the only one: any list of commands followed by less than a
      command is the list the splitter finds. */
  lemma {:induction false} SplitIsUnique(cs: seq<Words>, rest: Words)
    requires forall i :: 0 <= i < |cs| ==> IsCommand(cs[i])
    requires !Whole(rest)
    ensures Commands(Flatten(cs) + rest) == cs && Rest(Flatten(cs) + rest) == rest
  {
    var ws := Flatten(cs) + rest;
    if cs == [] {
      assert ws == rest;
    } else {
      var n := |cs[0]|;
      assert ws[0] == cs[0][0];
      assert ws[..n] == cs[0] && ws[n..] == Flatten(cs[1..]) + rest;
      SplitIsUnique(cs[1..], rest);
    }
  }

  /** Splitting in two runs, carrying the rest over, is splitting at once. */
  lemma {:induction false} SplitInTwo(a: Words, b: Words)
    ensures Commands(a + b) == Commands(a) + Commands(Rest(a) + b)
    ensures Rest(a + b) == Rest(Rest(a) + b)
    decreases |a|
  {
    hide CommandLength;
    if Whole(a) {
      var n := CommandLength(a[0]);
      SplitInTwo(a[n..], b);
      WholePrefix(a, b);
    }
  }

  lemma WholePrefix(a: Words, b: Words)
    requires Whole(a)
    ensures Commands(a + b) == [a[..CommandLength(a[0])]] + Commands(a[CommandLength(a[0])..] + b)
    ensures Rest(a + b) == Rest(a[CommandLength(a[0])..] + b)
  {
    hide CommandLength;
    var n := CommandLength(a[0]);
    assert (a + b)[0] == a[0];
    assert (a + b)[..n] == a[..n];
    assert (a + b)[n..] == a[n..] + b;
  }

  lemma {:induction false} EffectsConcat(a: seq<Words>, b: seq<Words>)
    ensures Effects(a + b) == Effects(a) + Effects(b)
  {
    hide EffectsOf;
    if a == [] {
      assert a + b == b;
    } else {
      assert (a + b)[1..] == a[1..] + b;
      EffectsConcat(a[1..], b);
    }
  }

  /** Everything a stream makes the RDP do. */
  function StreamEffects(ws: Words): seq<Effect> { Effects(Commands(ws)) }

  lemma StreamInTwo(a: Words, b: Words)
    ensures StreamEffects(a + b) == StreamEffects(a) + StreamEffects(Rest(a) + b)
    ensures Rest(a + b) == Rest(Rest(a) + b)
  {
    SplitInTwo(a, b);
    EffectsConcat(Commands(a), Commands(Rest(a) + b));
  }

  // ----- Registers -----

  datatype Memory = Memory(rdram: Words, dmem: Words) {
    predicate Valid() { |rdram| == RDRAM_WORDS && |dmem| == DMEM_WORDS }
  }

  datatype Dpc = Dpc(
    start: nat,
    end: nat,
    current: nat,
    startValid: bool,
    freeze: bool,
    xbus: bool)

  datatype Rdp = Rdp(dpc: Dpc, carry: Words, log: seq<Effect>)

  /** `value & 0xFFFFF8` */
  function AlignedAddress(value: nat): (a: nat)
    ensures a % 8 == 0 && a < 0x100_0000
  {
    var low := value % 0x100_0000;
    low - low % 8
  }

  predicate Aligned(d: Dpc) {
    && d.start % 8 == 0 && d.end % 8 == 0 && d.current % 8 == 0
    && d.start < 0x100_0000 && d.end < 0x100_0000 && d.current < 0x100_0000
  }

  /** RSP memory wraps at 4 KiB; RDRAM does not. */
  function WordAt(mem: Memory, xbus: bool, address: nat): Word
    requires mem.Valid() && (xbus || address < 4 * RDRAM_WORDS)
  {
    if xbus then mem.dmem[(address % 0x1000) / 4] else mem.rdram[address / 4]
  }

  /** The words from `from` up to `to`; empty when `to` is not beyond `from`. */
  function Fetch(mem: Memory, xbus: bool, from: nat, to: nat): (ws: Words)
    requires mem.Valid() && (xbus || to <= 4 * RDRAM_WORDS)
    ensures |ws| == if to <= from then 0 else (to - from) / 4
  {
    if to <= from then []
    else seq((to - from) / 4, i requires 0 <= i < (to - from) / 4 => WordAt(mem, xbus, from + 4 * i))
  }

  /** The words a run would consume now. */
  function Due(r: Rdp, mem: Memory): Words
    requires mem.Valid() && (r.dpc.xbus || r.dpc.end <= 4 * RDRAM_WORDS)
  {
    if r.dpc.freeze then [] else Fetch(mem, r.dpc.xbus, r.dpc.current, r.dpc.end)
  }

  /** Running the command processor. Nothing happens while frozen or without new words. */
  function RunCommand(r: Rdp, mem: Memory): Rdp
    requires mem.Valid() && (r.dpc.xbus || r.dpc.end <= 4 * RDRAM_WORDS)
  {
    if r.dpc.freeze || r.dpc.end <= r.dpc.current then r
    else
      var ws := r.carry + Fetch(mem, r.dpc.xbus, r.dpc.current, r.dpc.end);
      Rdp(r.dpc.(current := r.dpc.end), Rest(ws), r.log + StreamEffects(ws))
  }

  datatype Op =
    | WriteStart(value: nat)
    | WriteEnd(value: nat)
    | WriteStatus(clearXbus: bool, setXbus: bool, clearFreeze: bool, setFreeze: bool)

  function AfterStart(d: Dpc, value: nat): Dpc {
    d.(start := if d.startValid then d.start else AlignedAddress(value), startValid := true)
  }

  function AfterEnd(d: Dpc, value: nat): Dpc {
    d.(end := AlignedAddress(value), current := if d.startValid then d.start else d.current, startValid := false)
  }

  function AfterStatus(d: Dpc, op: Op): Dpc
    requires op.WriteStatus?
  {
    d.(xbus := (d.xbus && !op.clearXbus) || op.setXbus, freeze := (d.freeze && !op.clearFreeze) || op.setFreeze)
  }

  /** The registers as an operation leaves them before the processor runs. */
  function Registers(d: Dpc, op: Op): Dpc {
    match op
    case WriteStart(v) => AfterStart(d, v)
    case WriteEnd(v) => AfterEnd(d, v)
    case WriteStatus(_, _, _, _) => AfterStatus(d, op)
  }

  predicate Runs(op: Op) { op.WriteEnd? || (op.WriteStatus? && op.clearFreeze) }

  predicate InRange(r: Rdp, op: Op) {
    var d := Registers(r.dpc, op);
    d.xbus || d.end <= 4 * RDRAM_WORDS
  }

  function Apply(r: Rdp, op: Op, mem: Memory): Rdp
    requires mem.Valid() && InRange(r, op)
  {
    var r' := r.(dpc := Registers(r.dpc, op));
    if Runs(op) then RunCommand(r', mem) else r'
  }

  function Consumed(r: Rdp, op: Op, mem: Memory): Words
    requires mem.Valid() && InRange(r, op)
  {
    if Runs(op) then Due(r.(dpc := Registers(r.dpc, op)), mem) else []
  }

  lemma RunCommandConsumes(r: Rdp, mem: Memory)
    requires mem.Valid() && (r.dpc.xbus || r.dpc.end <= 4 * RDRAM_WORDS) && !Whole(r.carry)
    ensures RunCommand(r, mem).log == r.log + StreamEffects(r.carry + Due(r, mem))
    ensures RunCommand(r, mem).carry == Rest(r.carry + Due(r, mem))
  {
    if r.dpc.freeze || r.dpc.end <= r.dpc.current {
      assert r.carry + Due(r, mem) == r.carry;
      assert StreamEffects(r.carry) == [];
    }
  }

  // ----- Runs, with memory changing as it likes -----

  datatype Event = Event(op: Op, mem: Memory)

  predicate RunOk(r: Rdp, events: seq<Event>)
    decreases |events|
  {
    events != [] ==>
      && events[0].mem.Valid() && InRange(r, events[0].op)
      && RunOk(Apply(r, events[0].op, events[0].mem), events[1..])
  }

  function Run(r: Rdp, events: seq<Event>): Rdp
    requires RunOk(r, events)
    decreases |events|
  {
    if events == [] then r else Run(Apply(r, events[0].op, events[0].mem), events[1..])
  }

  function RunConsumed(r: Rdp, events: seq<Event>): Words
    requires RunOk(r, events)
    decreases |events|
  {
    if events == [] then []
    else
      Consumed(r, events[0].op, events[0].mem)
      + RunConsumed(Apply(r, events[0].op, events[0].mem), events[1..])
  }

  lemma ApplyConsumes(r: Rdp, op: Op, mem: Memory)
    requires mem.Valid() && InRange(r, op) && !Whole(r.carry)
    ensures Apply(r, op, mem).log == r.log + StreamEffects(r.carry + Consumed(r, op, mem))
    ensures Apply(r, op, mem).carry == Rest(r.carry + Consumed(r, op, mem))
  {
    var r' := r.(dpc := Registers(r.dpc, op));
    if Runs(op) {
      RunCommandConsumes(r', mem);
    } else {
      assert r.carry + [] == r.carry;
      assert StreamEffects(r.carry) == [];
    }
  }

  /** However the register writes cut the stream, the commands enqueued, the full
      syncs raised and the words carried over are those of splitting at once all
      the words consumed. */
  lemma {:induction false} RunsSplitAtOnce(r: Rdp, events: seq<Event>)
    requires RunOk(r, events) && !Whole(r.carry)
    ensures Run(r, events).log == r.log + StreamEffects(r.carry + RunConsumed(r, events))
    ensures Run(r, events).carry == Rest(r.carry + RunConsumed(r, events))
    decreases |events|
  {
    hide Apply, Consumed, StreamEffects, Rest, Whole;
    if events == [] {
      ApplyNothing(r);
    } else {
      var e := events[0];
      var r' := Apply(r, e.op, e.mem);
      ApplyConsumes(r, e.op, e.mem);
      RunsSplitAtOnce(r', events[1..]);
      CarryOver(r.carry, Consumed(r, e.op, e.mem), RunConsumed(r', events[1..]));
    }
  }

  lemma CarryOver(carry: Words, a: Words, b: Words)
    ensures StreamEffects(carry + (a + b)) == StreamEffects(carry + a) + StreamEffects(Rest(carry + a) + b)
    ensures Rest(carry + (a + b)) == Rest(Rest(carry + a) + b)
  {
    assert carry + (a + b) == (carry + a) + b;
    StreamInTwo(carry + a, b);
  }

  lemma ApplyNothing(r: Rdp)
    requires !Whole(r.carry)
    ensures r.log == r.log + StreamEffects(r.carry + []) && r.carry == Rest(r.carry + [])
  {
    assert r.carry + [] == r.carry;
  }
}
