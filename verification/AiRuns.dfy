/** Whole runs of the audio interface. */
module AiRuns {
  import opened AiSpec

  /** Register writes, a new sample period, and time passing. */
  datatype Event = Address(value: nat) | Length(value: nat) | Period(period: nat) | Time(cycles: nat)

  predicate EventOk(e: Event) { e.Period? ==> e.period > 0 }

  function Step(s: Ai, e: Event): Ai
    requires Valid(s)
  {
    match e
    case Address(value) => WriteAddress(s, value)
    case Length(value) => WriteLength(s, value)
    case Period(period) => s.(period := period)
    case Time(cycles) => AiStep(s, cycles)
  }

  function Started(s: Ai, e: Event): seq<Dma>
    requires Valid(s)
  {
    if e.Length? && Accepts(s, e.value) then [Accepted(s, e.value)] else []
  }

  lemma {:induction false} DrainKeeps(s: Ai, ds: seq<Dma>)
    requires Inv(s, ds)
    ensures Inv(Drain(s), ds)
    decreases s.cycles
  {
    hide Sample, Schedule, Played, Rest, FinalCarry;
    if s.cycles > s.period {
      SampleKeepsValid(s);
      SampleKeeps(s, ds);
      var r := Sample(s);
      ClockIsApart(r, r.cycles - r.period, r.period);
      DrainKeeps(r.(cycles := r.cycles - r.period), ds);
    }
  }

  lemma ClockIsApart(s: Ai, cycles: nat, period: nat)
    ensures Rest(s.(cycles := cycles, period := period)) == Rest(s)
    ensures FinalCarry(s.(cycles := cycles, period := period)) == FinalCarry(s)
  {
    hide Words, Carried;
  }

  lemma StepKeeps(s: Ai, ds: seq<Dma>, e: Event)
    requires Inv(s, ds) && EventOk(e)
    ensures Inv(Step(s, e), ds + Started(s, e))
  {
    hide Schedule, Played, Rest, FinalCarry, WriteLength, WriteAddress, Drain;
    assert ds + [] == ds;
    match e
    case Address(value) => WriteAddressKeeps(s, ds, value);
    case Length(value) => WriteLengthKeeps(s, ds, value);
    case Period(period) => ClockIsApart(s, s.cycles, period);
    case Time(cycles) =>
      ClockIsApart(s, s.cycles + cycles, s.period);
      DrainKeeps(s.(cycles := s.cycles + cycles), ds);
  }

  predicate AllOk(events: seq<Event>) { forall i :: 0 <= i < |events| ==> EventOk(events[i]) }

  ghost function After(s: Ai, ds: seq<Dma>, events: seq<Event>): (r: (Ai, seq<Dma>))
    requires Inv(s, ds) && AllOk(events)
    ensures Inv(r.0, r.1)
    decreases |events|
  {
    if events == [] then (s, ds)
    else
      StepKeeps(s, ds, events[0]);
      After(Step(s, events[0]), ds + Started(s, events[0]), events[1..])
  }

  /** Power-on. */
  function Idle(period: nat): Ai { Ai(0, 0, 0, 0, 0, false, 0, period, [], 0) }

  lemma IdleIsFine(period: nat)
    requires period > 0
    ensures Inv(Idle(period), [])
  {}

  function TotalWords(ds: seq<Dma>): nat {
    if ds == [] then 0 else TotalWords(ds[..|ds| - 1]) + ds[|ds| - 1].length / 4
  }

  lemma {:induction false} ScheduleLength(ds: seq<Dma>)
    ensures |Schedule(ds)| == TotalWords(ds)
  {
    if ds != [] {
      ScheduleLength(ds[..|ds| - 1]);
    }
  }

  /** On every run at most two DMAs are held; what has been played is the front of the
      accepted DMAs' schedule; each accepted DMA has raised its interrupt or is still
      held; and an idle unit has played everything, a word for every four bytes. */
  lemma PlaysTheSchedule(period: nat, events: seq<Event>)
    requires period > 0 && AllOk(events)
    ensures Inv(Idle(period), [])
    ensures
      var (s, ds) := After(Idle(period), [], events);
      && s.count <= 2
      && Played(s.out) <= Schedule(ds)
      && s.raises + s.count == |ds|
      && (s.count == 0 ==> Played(s.out) == Schedule(ds) && |Played(s.out)| == TotalWords(ds))
  {
    IdleIsFine(period);
    var (s, ds) := After(Idle(period), [], events);
    ScheduleLength(ds);
    hide After, Schedule, Played, TotalWords;
    assert s.count == 0 ==> Played(s.out) + [] == Played(s.out);
  }

  // ----- An address written while a DMA plays -----

  /** Samples that fall due in `cycles` accumulated cycles: one for each period but the
      last, whole or begun. */
  function SamplesDue(cycles: nat, period: nat): nat
    requires period > 0
  {
    if cycles == 0 then 0 else (cycles - 1) / period
  }

  lemma OneSampleLess(cycles: nat, period: nat)
    requires 0 < period
    ensures cycles <= period ==> SamplesDue(cycles, period) == 0
    ensures cycles > period ==> SamplesDue(cycles, period) == 1 + SamplesDue(cycles - period, period)
  {
    if 0 < cycles <= period {
      Quotient(0, cycles - 1, period);
    } else if cycles > period {
      var q, r := (cycles - period - 1) / period, (cycles - period - 1) % period;
      assert cycles - period - 1 == q * period + r;
      assert cycles - 1 == (q + 1) * period + r;
      Quotient(q + 1, r, period);
    }
  }

  lemma {:induction false} Quotient(q: nat, r: nat, d: nat)
    requires r < d
    ensures (q * d + r) / d == q
  {
    var x := q * d + r;
    var p := x / d;
    assert p * d + x % d == x;
    if p < q {
      Ordered(p + 1, q, d);
    } else if p > q {
      Ordered(q + 1, p, d);
    }
  }

  lemma Ordered(p: nat, q: nat, d: nat)
    requires p <= q
    ensures p * d <= q * d
  {
    assert q * d == p * d + (q - p) * d;
  }

  /** The address register a DMA leaves: the frame of its last word, the offset after
      it. The carry it leaves brings it to the DMA's end. */
  function EndRegister(start: nat, length: nat): nat
    requires length >= 4
  {
    var last := (start + length - 4) % SPACE;
    last / CARRY * CARRY + (last + 4) % CARRY
  }

  lemma EndStays(a: nat, next: nat, length: nat)
    requires a < SPACE && a % 4 == 0 && length >= 8 && next == (if a + 4 == SPACE then 0 else a + 4)
    ensures EndRegister(next, length - 4) == EndRegister(a, length)
    ensures (next + (length - 4)) % SPACE == (a + length) % SPACE
  {
    AroundSpace(next + length - 8);
    AroundSpace(next + length - 4);
  }

  lemma AroundSpace(x: nat)
    ensures (x + SPACE) % SPACE == x % SPACE
  {}

  lemma {:induction false} DrainIdle(s: Ai)
    requires Valid(s) && s.count == 0
    ensures Drain(s).count == 0 && Drain(s).address0 == s.address0 && Drain(s).carry == s.carry
    decreases s.cycles
  {
    if s.cycles > s.period {
      SampleKeepsValid(s);
      var r := Sample(s);
      DrainIdle(r.(cycles := r.cycles - r.period));
    }
  }

  lemma SampleOfOne(s: Ai)
    requires Valid(s) && s.count == 1
    ensures
      var a, r := Carried(s.address0, s.carry), Sample(s);
      && a < SPACE && a % 4 == 0
      && r.address1 == s.address1
      && (s.length0 > 4 ==> r.count == 1 && r.length0 == s.length0 - 4)
      && (s.length0 == 4 ==> r.count == 0 && r.address0 == EndRegister(a, 4))
      && Carried(r.address0, r.carry) == if a + 4 == SPACE then 0 else a + 4
  {
    hide Carried;
    CarriedFacts(s.address0, s.carry);
    Advance(Carried(s.address0, s.carry));
  }

  /** While fewer samples fall due than the DMA has words, it keeps playing and slot 1
      is untouched; else it ends. */
  lemma {:induction false} DrainOfOne(s: Ai)
    requires Valid(s) && s.count == 1
    ensures
      var a, r, due := Carried(s.address0, s.carry), Drain(s), SamplesDue(s.cycles, s.period);
      && Valid(r) && r.period == s.period
      && (4 * due < s.length0 ==>
           && r.count == 1 && r.length0 == s.length0 - 4 * due && r.address1 == s.address1
           && Carried(r.address0, r.carry) == (a + 4 * due) % SPACE)
      && (4 * due >= s.length0 ==>
           && r.count == 0 && r.address0 == EndRegister(a, s.length0)
           && Carried(r.address0, r.carry) == (a + s.length0) % SPACE)
    decreases s.cycles
  {
    hide Carried, Sample, SamplesDue, EndRegister, AiSpec.Valid;
    ValidShape(s);
    OneSampleLess(s.cycles, s.period);
    DrainClock(s);
    CarriedFacts(s.address0, s.carry);
    if s.cycles > s.period {
      SampleKeepsValid(s);
      SampleOfOne(s);
      var a, r := Carried(s.address0, s.carry), Sample(s);
      var next := r.(cycles := r.cycles - r.period);
      AnyTime(r, next.cycles);
      if s.length0 == 4 {
        DrainIdle(next);
      } else {
        EndStays(a, Carried(r.address0, r.carry), s.length0);
        StepsOn(a, Carried(r.address0, r.carry), SamplesDue(next.cycles, next.period));
        DrainOfOne(next);
      }
    } else {
      InSpace(Carried(s.address0, s.carry));
    }
  }

  lemma ValidShape(s: Ai)
    requires Valid(s)
    ensures s.period > 0 && s.address0 < SPACE && s.address0 % 4 == 0
    ensures s.count > 0 ==> s.length0 >= 4 && s.length0 % 4 == 0 && (s.length0 > 4 ==> s.length0 >= 8)
  {}

  lemma AnyTime(s: Ai, cycles: nat)
    requires Valid(s)
    ensures Valid(s.(cycles := cycles))
  {}

  lemma InSpace(a: nat)
    requires a < SPACE
    ensures a % SPACE == a
  {}

  lemma StepsOn(a: nat, next: nat, k: nat)
    requires next == if a + 4 == SPACE then 0 else a + 4
    ensures (next + 4 * k) % SPACE == (a + 4 * (k + 1)) % SPACE
  {
    AroundSpace(next + 4 * k);
  }

  lemma {:induction false} DrainClock(s: Ai)
    requires Valid(s)
    ensures Valid(Drain(s)) && Drain(s).period == s.period
    ensures SamplesDue(s.cycles, s.period) * s.period <= s.cycles
    ensures Drain(s).cycles == s.cycles - SamplesDue(s.cycles, s.period) * s.period
    decreases s.cycles
  {
    hide Sample, SamplesDue;
    OneSampleLess(s.cycles, s.period);
    if s.cycles > s.period {
      SampleKeepsValid(s);
      var r := Sample(s);
      DrainClock(r.(cycles := r.cycles - r.period));
      OneMorePeriod(SamplesDue(s.cycles - s.period, s.period), s.period);
    }
  }

  /** Time passing plays one sample for every whole period, keeping a last one unplayed. */
  lemma {:induction false} DrainPlays(s: Ai)
    requires Valid(s)
    ensures |Drain(s).out| == |s.out| + SamplesDue(s.cycles, s.period)
    decreases s.cycles
  {
    hide Carried, SamplesDue;
    OneSampleLess(s.cycles, s.period);
    if s.cycles > s.period {
      SampleKeepsValid(s);
      var r := Sample(s);
      DrainPlays(r.(cycles := r.cycles - r.period));
    }
  }

  lemma OneMorePeriod(k: nat, period: nat)
    ensures (k + 1) * period == k * period + period && 0 * period == 0
  {}

  // ----- Waiting between the address and the length -----

  /** Time passing and period changes: nothing that touches the DMA slots. */
  predicate Waits(events: seq<Event>) {
    forall i :: 0 <= i < |events| ==> EventOk(events[i]) && (events[i].Time? || events[i].Period?)
  }

  /** Samples that fall due over the events. */
  function SamplesIn(cycles: nat, period: nat, events: seq<Event>): nat
    requires period > 0 && Waits(events)
    decreases |events|
  {
    if events == [] then 0
    else if events[0].Period? then SamplesIn(cycles, events[0].period, events[1..])
    else
      var due := SamplesDue(cycles + events[0].cycles, period);
      DueFits(cycles + events[0].cycles, period);
      due + SamplesIn(cycles + events[0].cycles - due * period, period, events[1..])
  }

  lemma DueFits(cycles: nat, period: nat)
    requires period > 0
    ensures SamplesDue(cycles, period) * period <= cycles
  {
    if cycles > 0 {
      assert cycles - 1 == (cycles - 1) / period * period + (cycles - 1) % period;
    }
  }

  function AfterAll(s: Ai, events: seq<Event>): Ai
    requires Valid(s) && Waits(events)
    decreases |events|
  {
    if events == [] then s
    else
      WaitKeepsValid(s, events[0]);
      AfterAll(Step(s, events[0]), events[1..])
  }

  lemma WaitKeepsValid(s: Ai, e: Event)
    requires Valid(s) && EventOk(e) && (e.Time? || e.Period?)
    ensures Valid(Step(s, e))
  {
    if e.Time? {
      DrainAdds(s.(cycles := s.cycles + e.cycles), 0);
    }
  }

  /** An idle unit stays as it is, but for its clock and the silence it pushes. */
  lemma {:induction false} StaysIdle(s: Ai, events: seq<Event>)
    requires Valid(s) && Waits(events) && s.count == 0
    ensures
      var r := AfterAll(s, events);
      Valid(r) && r.count == 0 && r.address0 == s.address0 && r.carry == s.carry
    decreases |events|
  {
    hide Drain, SamplesDue;
    if events != [] {
      WaitKeepsValid(s, events[0]);
      if events[0].Time? {
        DrainIdle(s.(cycles := s.cycles + events[0].cycles));
      }
      StaysIdle(Step(s, events[0]), events[1..]);
    }
  }

  lemma EndFrom(a: nat, length: nat, due: nat)
    requires a < SPACE && 4 * due < length && length % 4 == 0
    ensures length - 4 * due >= 4
    ensures EndRegister((a + 4 * due) % SPACE, length - 4 * due) == EndRegister(a, length)
    ensures ((a + 4 * due) % SPACE + (length - 4 * due)) % SPACE == (a + length) % SPACE
  {
    WordsLeft(length, due);
    SameTurn(a + 4 * due, length - 4 * due);
    hide EndRegister;
    SameEnd((a + 4 * due) % SPACE, length - 4 * due, a, length);
  }

  lemma WordsLeft(length: nat, due: nat)
    requires 4 * due < length && length % 4 == 0
    ensures length - 4 * due >= 4
  {}

  lemma SameTurn(x: nat, y: nat)
    requires y >= 4
    ensures (x % SPACE + y - 4) % SPACE == (x + y - 4) % SPACE
    ensures (x % SPACE + y) % SPACE == (x + y) % SPACE
  {
    var q, b := x / SPACE, x % SPACE;
    assert x == b + q * SPACE;
    Turns(b + y - 4, q);
    Turns(b + y, q);
  }

  lemma SameEnd(a: nat, m: nat, b: nat, n: nat)
    requires m >= 4 && n >= 4 && (a + m - 4) % SPACE == (b + n - 4) % SPACE
    ensures EndRegister(a, m) == EndRegister(b, n)
  {}

  lemma Turns(x: nat, q: nat)
    ensures (x + q * SPACE) % SPACE == x % SPACE
  {}

  /** While fewer samples fall due than the DMA has words, over any waiting, it keeps
      playing and slot 1 is untouched; else it ends. */
  lemma {:induction false} WaitsOfOne(s: Ai, events: seq<Event>)
    requires Valid(s) && Waits(events) && s.count == 1
    ensures
      var a, r, due := Carried(s.address0, s.carry), AfterAll(s, events), SamplesIn(s.cycles, s.period, events);
      && Valid(r)
      && (4 * due < s.length0 ==> r.count == 1 && r.address1 == s.address1)
      && (4 * due >= s.length0 ==>
           && r.count == 0 && r.address0 == EndRegister(a, s.length0)
           && Carried(r.address0, r.carry) == (a + s.length0) % SPACE)
    decreases |events|
  {
    hide Drain, SamplesDue, Carried, EndRegister;
    if events != [] {
      WaitKeepsValid(s, events[0]);
      var next := Step(s, events[0]);
      if events[0].Time? {
        var w := s.(cycles := s.cycles + events[0].cycles);
        DrainOfOne(w);
        DrainClock(w);
        CarriedFacts(s.address0, s.carry);
        if next.count == 1 {
          EndFrom(Carried(s.address0, s.carry), s.length0, SamplesDue(w.cycles, w.period));
          WaitsOfOne(next, events[1..]);
        } else {
          StaysIdle(next, events[1..]);
        }
      } else {
        WaitsOfOne(next, events[1..]);
      }
    }
  }

  /** Fewer samples fall due over the events than the playing DMA has words left. */
  predicate StillPlays(s: Ai, events: seq<Event>)
    requires Valid(s) && Waits(events)
  {
    4 * SamplesIn(s.cycles, s.period, events) < s.length0
  }

  /** The address register after the playing DMA has ended. */
  function Ended(s: Ai): nat
    requires Valid(s) && s.count == 1
  {
    EndRegister(Carried(s.address0, s.carry), s.length0)
  }

  /** An address written while one DMA plays, any time and any changes of the period
      before the length: the new DMA starts there if the old one still plays. Else the
      address is lost, and the new DMA goes on from the old one's end. */
  lemma AddressLostIff(s: Ai, value: nat, events: seq<Event>, length: nat)
    requires Valid(s) && Waits(events) && s.count == 1 && LengthOf(length) > 0
    ensures Valid(WriteAddress(s, value))
    ensures
      var r := AfterAll(WriteAddress(s, value), events);
      && Valid(r) && Accepts(r, length)
      && (r.count == 1 <==> StillPlays(s, events))
      && Accepted(r, length).address == (if StillPlays(s, events) then AddressOf(value) else Ended(s))
      && (!StillPlays(s, events) ==>
           Carried(r.address0, r.carry) == (Carried(s.address0, s.carry) + s.length0) % SPACE)
  {
    hide Carried, AddressOf, LengthOf, AfterAll, SamplesIn, EndRegister, AiSpec.Valid;
    WritesKeepValid(s, value);
    HasWords(WriteAddress(s, value));
    WaitsOfOne(WriteAddress(s, value), events);
  }

  lemma HasWords(s: Ai)
    requires Valid(s)
    ensures s.count > 0 ==> s.length0 >= 4
  {}

  /** An address write is dropped exactly while both slots are taken, unless it would
      change nothing. */
  lemma FullDropsAddress(s: Ai, value: nat)
    requires Valid(s)
    ensures s.count == 2 ==> WriteAddress(s, value) == s
    ensures s.count < 2 && AddressOf(value) != (if s.count == 0 then s.address0 else s.address1) ==>
      WriteAddress(s, value) != s
  {
    hide AddressOf;
  }
}
