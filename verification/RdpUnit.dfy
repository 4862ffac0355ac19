/** The display-list consumer as the emulator runs it: a word buffer refilled from
    memory, a count of words carried over, and the DPC registers. */
module RdpUnit {
  import opened RdpSpec

  class RdpConsumer {
    const buffer: array<Word>
    var unprocessed: nat
    var dpc: Dpc
    /** What reached the renderer, in order. */
    var log: seq<Effect>

    ghost predicate Valid()
      reads this, buffer
    {
      && buffer.Length == BUFFER_SIZE && unprocessed < MAX_COMMAND
      && !Whole(buffer[..unprocessed]) && Aligned(dpc)
    }

    ghost function State(): Rdp
      requires unprocessed <= buffer.Length
      reads this, buffer
    {
      Rdp(dpc, buffer[..unprocessed], log)
    }

    constructor ()
      ensures Valid() && State() == Rdp(Dpc(0, 0, 0, false, false, false), [], [])
    {
      buffer := new Word[BUFFER_SIZE](_ => 0);
      unprocessed := 0;
      dpc := Dpc(0, 0, 0, false, false, false);
      log := [];
    }

    /** Reads the new words behind the carried ones. */
    method Refill(mem: Memory)
      requires mem.Valid() && Valid() && dpc.current < dpc.end
      requires dpc.xbus || dpc.end <= 4 * RDRAM_WORDS
      requires (dpc.end - dpc.current) + 4 * unprocessed <= BUFFER_SIZE
      modifies buffer
      ensures buffer[..unprocessed + (dpc.end - dpc.current) / 4]
           == old(buffer[..unprocessed]) + Fetch(mem, dpc.xbus, dpc.current, dpc.end)
    {
      hide WordAt, Whole;
      var n := (dpc.end - dpc.current) / 4;
      ghost var ws := Fetch(mem, dpc.xbus, dpc.current, dpc.end);
      for i := 0 to n
        invariant buffer[..unprocessed] == old(buffer[..unprocessed])
        invariant forall k :: 0 <= k < i ==> buffer[unprocessed + k] == ws[k]
      {
        buffer[unprocessed + i] := WordAt(mem, dpc.xbus, dpc.current + 4 * i);
      }
      assert buffer[unprocessed..unprocessed + n] == ws;
      assert buffer[..unprocessed + n] == buffer[..unprocessed] + buffer[unprocessed..unprocessed + n];
    }

    /** Moves the words of an incomplete command to the front of the buffer. */
    method SaveRemainder(from: nat, to: nat)
      requires buffer.Length == BUFFER_SIZE && from <= to <= BUFFER_SIZE
      modifies this`unprocessed, buffer
      ensures unprocessed == to - from
      ensures buffer[..unprocessed] == old(buffer[from..to])
    {
      var n := to - from;
      ghost var saved := buffer[from..to];
      var temp := new Word[n](_ => 0);
      for i := 0 to n
        invariant buffer[from..to] == saved
        invariant forall k :: 0 <= k < i ==> temp[k] == saved[k]
      {
        temp[i] := buffer[from + i];
      }
      for i := 0 to n
        invariant forall k :: 0 <= k < i ==> buffer[k] == saved[k]
        invariant forall k :: 0 <= k < n ==> temp[k] == saved[k]
      {
        buffer[i] := temp[i];
      }
      unprocessed := n;
    }

    /** Walks the commands in the first `length` words of the buffer. */
    method RunCommands(length: nat) returns (index: nat)
      requires buffer.Length == BUFFER_SIZE && length <= BUFFER_SIZE
      modifies this`log
      ensures index <= length && buffer[index..length] == Rest(buffer[..length])
      ensures log == old(log) + StreamEffects(buffer[..length])
    {
      hide CommandLength, EffectsOf, StreamEffects, Rest;
      index := 0;
      ghost var ws := buffer[..length];
      ghost var done: seq<Effect> := [];
      assert ws[0..] == ws;
      assert StreamEffects(ws) == done + StreamEffects(ws[0..]);
      while index < length
        invariant index <= length
        invariant Rest(ws) == Rest(ws[index..])
        invariant StreamEffects(ws) == done + StreamEffects(ws[index..])
        invariant log == old(log) + done
        decreases length - index
      {
        var n := CommandLength(buffer[index]);
        if index + n > length {
          break;
        }
        var command := buffer[index..index + n];
        NextCommand(ws, index);
        assert command == ws[index..][..n];
        Prepend(done, EffectsOf(command), StreamEffects(ws[index + n..]));
        log := log + EffectsOf(command);
        done := done + EffectsOf(command);
        index := index + n;
      }
      NothingLeft(ws, index);
      assert done + [] == done;
    }

    static lemma Prepend(a: seq<Effect>, b: seq<Effect>, c: seq<Effect>)
      ensures a + (b + c) == (a + b) + c
    {}

    static lemma NothingLeft(ws: Words, i: nat)
      requires i <= |ws| && (i < |ws| ==> i + CommandLength(ws[i]) > |ws|)
      ensures StreamEffects(ws[i..]) == [] && Rest(ws[i..]) == ws[i..]
    {}

    static lemma NextCommand(ws: Words, i: nat)
      requires i < |ws| && i + CommandLength(ws[i]) <= |ws|
      ensures var n := CommandLength(ws[i]);
        && StreamEffects(ws[i..]) == EffectsOf(ws[i..][..n]) + StreamEffects(ws[i + n..])
        && Rest(ws[i..]) == Rest(ws[i + n..])
    {
      hide CommandLength, EffectsOf;
      var n := CommandLength(ws[i]);
      assert ws[i..][n..] == ws[i + n..];
      assert Commands(ws[i..])[1..] == Commands(ws[i + n..]);
    }

    method ProcessRdpList(mem: Memory)
      requires mem.Valid() && Valid()
      requires dpc.xbus || dpc.end <= 4 * RDRAM_WORDS
      requires (dpc.end - dpc.current) + 4 * unprocessed <= BUFFER_SIZE
      modifies this, buffer
      ensures Valid()
      ensures var old_ := old(State());
        State() == if old_.dpc.end <= old_.dpc.current then old_.(dpc := old_.dpc.(freeze := true))
                   else RunCommand(old_.(dpc := old_.dpc.(freeze := false)), mem)
    {
      hide Rest, StreamEffects, Fetch;
      dpc := dpc.(freeze := true);
      var displayListLength := dpc.end - dpc.current;
      if displayListLength <= 0 {
        return;
      }
      Refill(mem);
      var length := unprocessed + displayListLength / 4;
      var index := RunCommands(length);
      SaveRemainder(index, length);
      dpc := dpc.(current := dpc.end, freeze := false);
    }

    method RunRdpCommand(mem: Memory)
      requires mem.Valid() && Valid()
      requires dpc.xbus || dpc.end <= 4 * RDRAM_WORDS
      requires (dpc.end - dpc.current) + 4 * unprocessed <= BUFFER_SIZE
      modifies this, buffer
      ensures Valid() && State() == RunCommand(old(State()), mem)
    {
      hide Rest, StreamEffects, Fetch;
      if dpc.freeze {
        return;
      }
      if dpc.end > dpc.current {
        assert dpc.(freeze := false) == dpc;
        ProcessRdpList(mem);
      }
    }

    /** Whether a register write leaves no more words to read than the buffer holds. */
    ghost predicate Fits(op: Op)
      reads this, buffer
    {
      var d := Registers(dpc, op);
      (d.end - d.current) + 4 * unprocessed <= BUFFER_SIZE
    }

    method StartRegWrite(value: nat)
      requires Valid()
      modifies this`dpc
      ensures Valid() && State() == old(State()).(dpc := AfterStart(old(dpc), value))
    {
      if !dpc.startValid {
        dpc := dpc.(start := AlignedAddress(value));
      }
      dpc := dpc.(startValid := true);
    }

    method EndRegWrite(value: nat, mem: Memory)
      requires mem.Valid() && Valid() && InRange(State(), WriteEnd(value)) && Fits(WriteEnd(value))
      modifies this, buffer
      ensures Valid() && State() == Apply(old(State()), WriteEnd(value), mem)
    {
      dpc := dpc.(end := AlignedAddress(value));
      if dpc.startValid {
        dpc := dpc.(current := dpc.start, startValid := false);
      }
      RunRdpCommand(mem);
    }

    method StatusRegWrite(op: Op, mem: Memory)
      requires op.WriteStatus?
      requires mem.Valid() && Valid() && InRange(State(), op) && Fits(op)
      modifies this, buffer
      ensures Valid() && State() == Apply(old(State()), op, mem)
    {
      hide RunCommand;
      if op.clearXbus {
        dpc := dpc.(xbus := false);
      }
      if op.setXbus {
        dpc := dpc.(xbus := true);
      }
      var unfrozen := false;
      if op.clearFreeze {
        dpc := dpc.(freeze := false);
        unfrozen := true;
      }
      if op.setFreeze {
        dpc := dpc.(freeze := true);
      }
      assert dpc == AfterStatus(old(dpc), op);
      if unfrozen {
        RunRdpCommand(mem);
      }
    }
  }
}
