/** What the program submits against what the RDP consumes: freezing delays words
    but drops none, unless a new START is taken or END moves back while words are
    still waiting. */
module RdpSubmission {
  import opened RdpSpec

  /** Where the words announced by the next END write begin: at a START, else where the
      words announced or consumed so far stop. */
  function Base(d: Dpc): nat { if d.startValid then d.start else Later(d.current, d.end) }

  function Later(a: nat, b: nat): nat { if a < b then b else a }

  /** Words wait only while frozen. */
  predicate Settled(r: Rdp) { Aligned(r.dpc) && (!r.dpc.freeze ==> r.dpc.end <= r.dpc.current) }

  /** Words announced but not yet consumed. */
  function Waiting(r: Rdp, mem: Memory): Words
    requires mem.Valid() && (r.dpc.xbus || r.dpc.end <= 4 * RDRAM_WORDS)
  {
    Fetch(mem, r.dpc.xbus, r.dpc.current, r.dpc.end)
  }

  /** No announced word is lost: nothing waits, or the END write goes on from where the
      last one stopped. */
  predicate KeepsWords(r: Rdp, op: Op) {
    op.WriteEnd? && r.dpc.current < r.dpc.end ==> !r.dpc.startValid && r.dpc.end <= AlignedAddress(op.value)
  }

  /** Waiting words still come from the same memory. */
  predicate SameSource(r: Rdp, op: Op) { r.dpc.current < r.dpc.end ==> Registers(r.dpc, op).xbus == r.dpc.xbus }

  function Submitted(r: Rdp, op: Op, mem: Memory): Words
    requires mem.Valid() && InRange(r, op)
  {
    if op.WriteEnd? then Fetch(mem, r.dpc.xbus, Base(r.dpc), AlignedAddress(op.value)) else []
  }

  lemma FetchConcat(mem: Memory, xbus: bool, a: nat, b: nat, c: nat)
    requires mem.Valid() && (xbus || c <= 4 * RDRAM_WORDS)
    requires a <= b <= c && a % 8 == 0 && b % 8 == 0 && c % 8 == 0
    ensures Fetch(mem, xbus, a, b) + Fetch(mem, xbus, b, c) == Fetch(mem, xbus, a, c)
  {
    hide WordAt;
    var n := (b - a) / 4;
    assert b == a + 4 * n;
    var whole, x, y := Fetch(mem, xbus, a, c), Fetch(mem, xbus, a, b), Fetch(mem, xbus, b, c);
    assert |whole| == |x| + |y|;
    forall i | 0 <= i < |whole| ensures whole[i] == (x + y)[i] {
      assert whole[i] == WordAt(mem, xbus, a + 4 * i);
      if i >= n {
        assert y[i - n] == WordAt(mem, xbus, b + 4 * (i - n));
      }
    }
  }

  lemma StepSettled(r: Rdp, op: Op, mem: Memory)
    requires mem.Valid() && InRange(r, op) && Settled(r)
    ensures Settled(Apply(r, op, mem))
  {
    hide Rest, StreamEffects, Fetch;
  }

  /** One register write: nothing announced is lost. */
  lemma StepAccounts(r: Rdp, op: Op, mem: Memory)
    requires mem.Valid() && InRange(r, op) && Settled(r) && SameSource(r, op) && KeepsWords(r, op)
    requires r.dpc.xbus || r.dpc.end <= 4 * RDRAM_WORDS
    ensures
      var r' := Apply(r, op, mem);
      && (r'.dpc.xbus || r'.dpc.end <= 4 * RDRAM_WORDS)
      && Waiting(r, mem) + Submitted(r, op, mem) == Consumed(r, op, mem) + Waiting(r', mem)
  {
    hide Rest, StreamEffects, Fetch;
    if op.WriteEnd? && r.dpc.current < r.dpc.end {
      StaysInRange(r, op, mem);
      EndWhileWaiting(r, op, mem);
      EndMovedOn(r, op, mem);
    } else if op.WriteEnd? {
      NothingWaits(r, op, mem);
    } else if op.WriteStatus? {
      FetchEmpty(mem, r.dpc.xbus, r.dpc.end, r.dpc.end);
      if r.dpc.end <= r.dpc.current {
        FetchEmpty(mem, r.dpc.xbus, r.dpc.current, r.dpc.end);
      }
    }
  }

  lemma FetchEmpty(mem: Memory, xbus: bool, a: nat, b: nat)
    requires mem.Valid() && (xbus || b <= 4 * RDRAM_WORDS) && b <= a
    ensures Fetch(mem, xbus, a, b) == []
  {}

  /** Words announced before or by the write, against words consumed or still waiting. */
  predicate Balances(r: Rdp, op: Op, mem: Memory)
    requires mem.Valid() && InRange(r, op) && (r.dpc.xbus || r.dpc.end <= 4 * RDRAM_WORDS)
    requires Apply(r, op, mem).dpc.xbus || Apply(r, op, mem).dpc.end <= 4 * RDRAM_WORDS
  {
    Waiting(r, mem) + Submitted(r, op, mem) == Consumed(r, op, mem) + Waiting(Apply(r, op, mem), mem)
  }

  lemma StaysInRange(r: Rdp, op: Op, mem: Memory)
    requires mem.Valid() && InRange(r, op)
    ensures Apply(r, op, mem).dpc.xbus || Apply(r, op, mem).dpc.end <= 4 * RDRAM_WORDS
  {
    hide Rest, StreamEffects, Fetch;
  }

  /** Exactly when a write loses words, wherever its END points: words wait, and the
      write takes a START or moves END back. Taking a START loses all that waited;
      moving END back loses those from the new END on. */
  lemma WordsLostIff(r: Rdp, op: Op, mem: Memory)
    requires mem.Valid() && InRange(r, op) && Settled(r) && SameSource(r, op)
    requires r.dpc.xbus || r.dpc.end <= 4 * RDRAM_WORDS
    ensures Apply(r, op, mem).dpc.xbus || Apply(r, op, mem).dpc.end <= 4 * RDRAM_WORDS
    ensures Balances(r, op, mem) <==> KeepsWords(r, op)
    ensures !KeepsWords(r, op) && r.dpc.startValid ==>
      Consumed(r, op, mem) + Waiting(Apply(r, op, mem), mem) == Submitted(r, op, mem)
    ensures !KeepsWords(r, op) && !r.dpc.startValid ==>
      && Submitted(r, op, mem) == []
      && Waiting(r, mem) == Consumed(r, op, mem) + Waiting(Apply(r, op, mem), mem)
           + Fetch(mem, r.dpc.xbus, Later(r.dpc.current, AlignedAddress(op.value)), r.dpc.end)
  {
    hide Rest, StreamEffects, Fetch, Apply;
    StaysInRange(r, op, mem);
    if op.WriteEnd? && r.dpc.current < r.dpc.end {
      EndWhileWaiting(r, op, mem);
      if r.dpc.startValid {
        StartTaken(r, op, mem);
      } else if AlignedAddress(op.value) < r.dpc.end {
        EndMovedBack(r, op, mem);
      } else {
        EndMovedOn(r, op, mem);
      }
    } else if op.WriteEnd? {
      NothingWaits(r, op, mem);
    } else {
      StepAccounts(r, op, mem);
    }
  }

  /** While words wait the processor is frozen and an END write only moves registers. */
  lemma EndWhileWaiting(r: Rdp, op: Op, mem: Memory)
    requires mem.Valid() && InRange(r, op) && Settled(r) && op.WriteEnd? && r.dpc.current < r.dpc.end
    ensures Apply(r, op, mem) == r.(dpc := AfterEnd(r.dpc, op.value)) && Consumed(r, op, mem) == []
  {
    hide Rest, StreamEffects, Fetch;
  }

  lemma StartTaken(r: Rdp, op: Op, mem: Memory)
    requires mem.Valid() && InRange(r, op) && Settled(r) && op.WriteEnd? && r.dpc.current < r.dpc.end
    requires r.dpc.startValid && (r.dpc.xbus || r.dpc.end <= 4 * RDRAM_WORDS)
    ensures
      var r' := r.(dpc := AfterEnd(r.dpc, op.value));
      (r'.dpc.xbus || r'.dpc.end <= 4 * RDRAM_WORDS) &&
      Waiting(r', mem) == Submitted(r, op, mem) && Waiting(r, mem) != []
  {
    hide WordAt;
  }

  lemma EndMovedBack(r: Rdp, op: Op, mem: Memory)
    requires mem.Valid() && InRange(r, op) && Settled(r) && op.WriteEnd? && r.dpc.current < r.dpc.end
    requires !r.dpc.startValid && AlignedAddress(op.value) < r.dpc.end && (r.dpc.xbus || r.dpc.end <= 4 * RDRAM_WORDS)
    ensures
      var r' := r.(dpc := AfterEnd(r.dpc, op.value));
      var lost := Fetch(mem, r.dpc.xbus, Later(r.dpc.current, AlignedAddress(op.value)), r.dpc.end);
      && (r'.dpc.xbus || r'.dpc.end <= 4 * RDRAM_WORDS)
      && Submitted(r, op, mem) == [] && Waiting(r, mem) == Waiting(r', mem) + lost && lost != []
  {
    hide WordAt;
    var d, e := r.dpc, AlignedAddress(op.value);
    assert |Fetch(mem, d.xbus, Later(d.current, e), d.end)| > 0;
    FetchEmpty(mem, d.xbus, d.end, e);
    hide Fetch;
    if d.current <= e {
      FetchConcat(mem, d.xbus, d.current, e, d.end);
    } else {
      FetchEmpty(mem, d.xbus, d.current, e);
    }
  }

  lemma EndMovedOn(r: Rdp, op: Op, mem: Memory)
    requires mem.Valid() && InRange(r, op) && Settled(r) && op.WriteEnd? && r.dpc.current < r.dpc.end
    requires !r.dpc.startValid && r.dpc.end <= AlignedAddress(op.value)
    requires r.dpc.xbus || r.dpc.end <= 4 * RDRAM_WORDS
    ensures
      var r' := r.(dpc := AfterEnd(r.dpc, op.value));
      (r'.dpc.xbus || r'.dpc.end <= 4 * RDRAM_WORDS) && Waiting(r, mem) + Submitted(r, op, mem) == Waiting(r', mem)
  {
    hide Fetch, WordAt;
    FetchConcat(mem, r.dpc.xbus, r.dpc.current, r.dpc.end, AlignedAddress(op.value));
  }

  lemma NothingWaits(r: Rdp, op: Op, mem: Memory)
    requires mem.Valid() && InRange(r, op) && Settled(r) && op.WriteEnd? && r.dpc.end <= r.dpc.current
    requires r.dpc.xbus || r.dpc.end <= 4 * RDRAM_WORDS
    ensures Apply(r, op, mem).dpc.xbus || Apply(r, op, mem).dpc.end <= 4 * RDRAM_WORDS
    ensures Balances(r, op, mem)
  {
    hide Rest, StreamEffects, Fetch, WordAt;
    var d, e := r.dpc, AlignedAddress(op.value);
    FetchEmpty(mem, d.xbus, d.current, d.end);
    FetchEmpty(mem, d.xbus, e, e);
    if e <= Base(d) {
      FetchEmpty(mem, d.xbus, Base(d), e);
    }
  }

  // ----- Whole runs -----

  predicate Orderly(r: Rdp, ops: seq<Op>, mem: Memory)
    requires mem.Valid()
    decreases |ops|
  {
    ops != [] ==>
      && InRange(r, ops[0]) && SameSource(r, ops[0]) && KeepsWords(r, ops[0])
      && Orderly(Apply(r, ops[0], mem), ops[1..], mem)
  }

  function Events(ops: seq<Op>, mem: Memory): (es: seq<Event>)
    ensures |es| == |ops|
  {
    if ops == [] then [] else [Event(ops[0], mem)] + Events(ops[1..], mem)
  }

  function AllSubmitted(r: Rdp, ops: seq<Op>, mem: Memory): Words
    requires mem.Valid() && Orderly(r, ops, mem)
    decreases |ops|
  {
    if ops == [] then []
    else Submitted(r, ops[0], mem) + AllSubmitted(Apply(r, ops[0], mem), ops[1..], mem)
  }

  lemma {:induction false} RunAccounts(r: Rdp, ops: seq<Op>, mem: Memory)
    requires mem.Valid() && Settled(r) && Orderly(r, ops, mem)
    requires r.dpc.xbus || r.dpc.end <= 4 * RDRAM_WORDS
    ensures RunOk(r, Events(ops, mem))
    ensures
      var r' := Run(r, Events(ops, mem));
      && Settled(r') && (r'.dpc.xbus || r'.dpc.end <= 4 * RDRAM_WORDS)
      && Waiting(r, mem) + AllSubmitted(r, ops, mem) == RunConsumed(r, Events(ops, mem)) + Waiting(r', mem)
    decreases |ops|
  {
    hide Apply, Settled, Submitted, Consumed, Waiting, Registers;
    if ops != [] {
      var r1 := Apply(r, ops[0], mem);
      StepSettled(r, ops[0], mem);
      StepAccounts(r, ops[0], mem);
      var es := Events(ops, mem);
      assert es[0] == Event(ops[0], mem) && es[1..] == Events(ops[1..], mem);
      RunAccounts(r1, ops[1..], mem);
      Shuffle(Waiting(r, mem), Submitted(r, ops[0], mem), Consumed(r, ops[0], mem), Waiting(r1, mem),
              AllSubmitted(r1, ops[1..], mem), RunConsumed(r1, es[1..]), Waiting(Run(r, es), mem));
    } else {
      assert Waiting(r, mem) + [] == [] + Waiting(r, mem);
    }
  }

  lemma Shuffle(w: Words, s: Words, c: Words, w1: Words, ss: Words, cs: Words, w2: Words)
    requires w + s == c + w1 && w1 + ss == cs + w2
    ensures w + (s + ss) == (c + cs) + w2
  {
    assert w + (s + ss) == (w + s) + ss;
    assert (c + w1) + ss == c + (w1 + ss);
    assert c + (cs + w2) == (c + cs) + w2;
  }

  /** Splitting a display list over END writes is invisible. Start idle; write START,
      END and STATUS in any number, freezing and unfreezing at will, as long as no
      write loses waiting words. Once unfrozen, the RDP has done exactly what the whole
      submitted stream, split at once, asks for. */
  lemma SplittingIsInvisible(r: Rdp, ops: seq<Op>, mem: Memory)
    requires mem.Valid() && Settled(r) && !r.dpc.freeze && !Whole(r.carry) && Orderly(r, ops, mem)
    requires r.dpc.xbus || r.dpc.end <= 4 * RDRAM_WORDS
    ensures RunOk(r, Events(ops, mem))
    ensures
      var r' := Run(r, Events(ops, mem));
      var stream := r.carry + AllSubmitted(r, ops, mem);
      !r'.dpc.freeze ==> r'.log == r.log + StreamEffects(stream) && r'.carry == Rest(stream)
  {
    hide Apply, StreamEffects, Rest, Fetch;
    RunAccounts(r, ops, mem);
    var es := Events(ops, mem);
    var r' := Run(r, es);
    RunsSplitAtOnce(r, es);
    FetchEmpty(mem, r.dpc.xbus, r.dpc.current, r.dpc.end);
    if !r'.dpc.freeze {
      FetchEmpty(mem, r'.dpc.xbus, r'.dpc.current, r'.dpc.end);
      assert RunConsumed(r, es) + [] == RunConsumed(r, es);
      assert [] + AllSubmitted(r, ops, mem) == AllSubmitted(r, ops, mem);
    }
  }
}
