/** What an interrupt exception and ERET do to the CPU's state over whole runs, which
    registers each action moves, and when the timer fires. */
module InterruptMeaning {
  import opened EventQueue
  import opened Interrupts
  import opened InterruptPool
  import opened InterruptDelivery

  // ----- The exception closes the door behind it -----

  /** Software writes Status only by MTC0 and ERET. */
  predicate WritesStatus(a: Action) { a.WriteStatus? || a.Eret? }

  predicate NoStatusWrite(actions: seq<Action>) { forall i :: 0 <= i < |actions| ==> !WritesStatus(actions[i]) }

  /** An interrupt is taken only with IE set and EXL and ERL clear. It sets EXL and leaves
      every other Status bit, the causes, the lines and the masks; nothing can be delivered
      then. */
  lemma TakenEffect(m: Machine, n: u64, vi: Halfline)
    requires Takes(m, n)
    ensures m.status.ie && !m.status.exl && !m.status.erl
    ensures
      var r := Apply(m, Cycles(n, vi));
      && r.status == Status(m.status.ie, true, m.status.erl, m.status.im)
      && r.ip == m.ip && r.intr == m.intr && r.mask == m.mask && r.compare == m.compare
      && !Deliverable(r)
  {
    hide InterruptUpdate;
    var a := Advanced(m, n);
    UpdateIsSched(a.(status := a.status.(exl := true)));
  }

  /** With EXL set, no step takes an interrupt, and only MTC0 and ERET change Status. */
  lemma HandlerStep(m: Machine, a: Action)
    requires m.status.exl && !WritesStatus(a)
    ensures Apply(m, a).status == m.status
    ensures a.Cycles? ==> !Takes(m, a.n)
  {
    hide InterruptUpdate, RescheduleCompare, RaiseLine;
    match a
    case Raise(line) => RaiseIsSched(m, line);
    case Lower(line) => UpdateIsSched(Changed(m.(intr := m.intr - {line})));
    case WriteMask(c, s) => UpdateIsSched(Changed(m.(mask := m.mask - c + s)));
    case WriteCause(ip0, ip1) => UpdateIsSched(m.(ip := WithBit(WithBit(m.ip, IP0, ip0), IP1, ip1)));
    case WriteCompare(v) => RescheduleIsSched(m.(ip := m.ip - {IP7}, compare := v));
    case WriteCount(v) => RescheduleIsSched(m.(count := v * 2));
    case Exception => UpdateIsSched(m.(status := m.status.(exl := true)));
    case Device(_, _) =>
    case Cancel(_) =>
    case WriteVsync(_) =>
    case Cycles(n, vi) => HandlerCycles(m, n, vi);
  }

  lemma HandlerCycles(m: Machine, n: u64, vi: Halfline)
    requires m.status.exl
    ensures Apply(m, Cycles(n, vi)).status == m.status
  {
    hide InterruptUpdate, RescheduleCompare, RaiseLine;
    var (_, e) := DoTick(m.sched, n);
    var m' := Advanced(m, n);
    if e.Some? {
      match e.value.kind
      case CompareInterrupt =>
        var m1 := m'.(ip := m'.ip + {IP7});
        UpdateIsSched(m1);
        RescheduleIsSched(InterruptUpdate(m1));
      case HandleInterrupt =>
      case SiDmaComplete => RaiseIsSched(m', SI);
      case PiDmaComplete => RaiseIsSched(m', PI);
      case ViHalfline => RaiseIsSched(m', VI);
      case PiBusWriteComplete =>
      case ResetSystem =>
    }
  }

  /** How many interrupt exceptions a run takes. */
  function Taken(m: Machine, actions: seq<Action>): nat
    decreases |actions|
  {
    if actions == [] then 0
    else
      (if actions[0].Cycles? && Takes(m, actions[0].n) then 1 else 0) + Taken(Apply(m, actions[0]), actions[1..])
  }

  lemma {:induction false} NoneInHandler(m: Machine, actions: seq<Action>)
    requires m.status.exl && NoStatusWrite(actions)
    ensures Taken(m, actions) == 0 && Play(m, actions).status == m.status
    decreases |actions|
  {
    hide Apply, Takes;
    if actions != [] {
      HandlerStep(m, actions[0]);
      NoneInHandler(Apply(m, actions[0]), actions[1..]);
    }
  }

  /** Over every run without a Status write, no interrupt exception follows the first. */
  lemma {:induction false} OneUntilStatusWrite(m: Machine, actions: seq<Action>)
    requires NoStatusWrite(actions)
    ensures Taken(m, actions) <= 1
    decreases |actions|
  {
    hide Apply, Takes, Deliverable;
    if actions != [] {
      var m' := Apply(m, actions[0]);
      if actions[0].Cycles? && Takes(m, actions[0].n) {
        TakenEffect(m, actions[0].n, actions[0].vi);
        NoneInHandler(m', actions[1..]);
      } else {
        OneUntilStatusWrite(m', actions[1..]);
      }
    }
  }

  /** ERET clears ERL if it is set, else EXL, and nothing else; what it leaves deliverable
      is what is enabled and pending with both bits clear. */
  lemma EretEffect(m: Machine)
    ensures
      var r := Apply(m, Eret);
      && r.status == Status(m.status.ie, m.status.erl && m.status.exl, false, m.status.im)
      && r.ip == m.ip && r.intr == m.intr && r.mask == m.mask && r.count == m.count && r.compare == m.compare
      && (Deliverable(r) <==> m.status.ie && !(m.status.erl && m.status.exl) && m.ip * m.status.im != {})
  {
    hide InterruptUpdate;
    UpdateIsSched(m.(status := if m.status.erl then m.status.(erl := false) else m.status.(exl := false)));
  }

  /** From an interrupt taken, through a handler that does not write Status, to its ERET:
      Status is as before the interrupt, and an interrupt is deliverable again exactly if
      an enabled cause is still pending. */
  lemma HandlerRound(m: Machine, n: u64, vi: Halfline, handler: seq<Action>)
    requires Takes(m, n) && NoStatusWrite(handler)
    ensures
      var h := Play(Apply(m, Cycles(n, vi)), handler);
      var r := Apply(h, Eret);
      && Taken(Apply(m, Cycles(n, vi)), handler) == 0
      && r.status == m.status && r.ip == h.ip
      && (Deliverable(r) <==> h.ip * m.status.im != {})
  {
    hide Apply, Taken, Play, Deliverable;
    var first := Apply(m, Cycles(n, vi));
    TakenEffect(m, n, vi);
    NoneInHandler(first, handler);
    EretEffect(Play(first, handler));
  }

  // ----- What each action moves -----

  /** The MI lines after an action: only raising, lowering and completed transfers or
      half-lines move them, each its own. */
  function LinesAfter(m: Machine, a: Action): set<Line> {
    match a
    case Raise(line) => m.intr + {line}
    case Lower(line) => m.intr - {line}
    case Cycles(n, vi) =>
      if m.sched.queue == [] || m.sched.queue[0].time > (m.sched.ticks + n) % U64 then m.intr
      else if m.sched.queue[0].kind == SiDmaComplete then m.intr + {SI}
      else if m.sched.queue[0].kind == PiDmaComplete then m.intr + {PI}
      else if m.sched.queue[0].kind == ViHalfline && vi.raises then m.intr + {VI}
      else m.intr
    case _ => m.intr
  }

  /** A mask bit both cleared and set ends set. */
  predicate MaskAfter(m: Machine, a: Action, r: Machine) {
    forall l: Line :: l in r.mask <==> if a.WriteMask? then l in a.set_ || (l in m.mask && l !in a.clear) else l in m.mask
  }

  /** IP7 is set by the timer event alone and cleared by a Compare write alone; IP0 and
      IP1 are software's. */
  predicate CausesAfter(m: Machine, a: Action, r: Machine) {
    && (IP7 in r.ip <==>
         if a.WriteCompare? then false
         else IP7 in m.ip || (a.Cycles? && m.sched.queue != [] && m.sched.queue[0].kind == CompareInterrupt
                               && m.sched.queue[0].time <= (m.sched.ticks + a.n) % U64))
    && (IP0 in r.ip <==> if a.WriteCause? then a.ip0 else IP0 in m.ip)
    && (IP1 in r.ip <==> if a.WriteCause? then a.ip1 else IP1 in m.ip)
  }

  /** Count runs with the clock and is otherwise only written, doubled. */
  predicate CountersAfter(m: Machine, a: Action, r: Machine) {
    && r.compare == (if a.WriteCompare? then a.compare else m.compare)
    && r.count == (if a.WriteCount? then 2 * a.count else if a.Cycles? then (m.count + a.n) % COUNT_RANGE else m.count)
    && r.sched.ticks == (if a.Cycles? then (m.sched.ticks + a.n) % U64 else m.sched.ticks)
  }

  /** Status moves by MTC0, ERET and exceptions alone. */
  function StatusAfter(m: Machine, a: Action): Status {
    var s := m.status;
    match a
    case WriteStatus(status) => status
    case Exception => Status(s.ie, true, s.erl, s.im)
    case Eret => Status(s.ie, s.erl && s.exl, false, s.im)
    case Cycles(n, _) => if Takes(m, n) then Status(s.ie, true, s.erl, s.im) else s
    case _ => s
  }

  predicate Moved(m: Machine, a: Action, r: Machine) {
    && r.intr == LinesAfter(m, a) && MaskAfter(m, a, r) && CausesAfter(m, a, r) && CountersAfter(m, a, r)
    && r.status == StatusAfter(m, a)
  }

  lemma ActionMoves(m: Machine, a: Action)
    ensures Moved(m, a, Apply(m, a))
  {
    hide InterruptUpdate, RescheduleCompare, RaiseLine;
    match a
    case Raise(line) => RaiseIsSched(m, line);
    case Lower(line) => UpdateIsSched(Changed(m.(intr := m.intr - {line})));
    case WriteMask(c, s) => UpdateIsSched(Changed(m.(mask := m.mask - c + s)));
    case WriteStatus(status) => UpdateIsSched(m.(status := status));
    case WriteCause(ip0, ip1) => UpdateIsSched(m.(ip := WithBit(WithBit(m.ip, IP0, ip0), IP1, ip1)));
    case WriteCompare(v) => RescheduleIsSched(m.(ip := m.ip - {IP7}, compare := v));
    case WriteCount(v) => RescheduleIsSched(m.(count := v * 2));
    case Exception => UpdateIsSched(m.(status := m.status.(exl := true)));
    case Eret =>
      UpdateIsSched(m.(status := if m.status.erl then m.status.(erl := false) else m.status.(exl := false)));
    case Device(_, _) =>
    case Cancel(_) =>
    case WriteVsync(_) =>
    case Cycles(n, vi) => CyclesMove(m, n, vi);
  }

  lemma CyclesMove(m: Machine, n: u64, vi: Halfline)
    ensures Moved(m, Cycles(n, vi), Apply(m, Cycles(n, vi)))
  {
    hide InterruptUpdate, RescheduleCompare, RaiseLine;
    var (_, e) := DoTick(m.sched, n);
    var m' := Advanced(m, n);
    if e.Some? {
      match e.value.kind
      case CompareInterrupt =>
        var m1 := m'.(ip := m'.ip + {IP7});
        UpdateIsSched(m1);
        RescheduleIsSched(InterruptUpdate(m1));
      case HandleInterrupt => UpdateIsSched(m'.(status := m'.status.(exl := true)));
      case SiDmaComplete => RaiseIsSched(m', SI);
      case PiDmaComplete => RaiseIsSched(m', PI);
      case ViHalfline => RaiseIsSched(m', VI);
      case PiBusWriteComplete =>
      case ResetSystem =>
    }
  }

  // ----- What each action schedules -----

  /** A device's event is due as many ticks from now as it asked for, a cancelled kind
      loses its first event, and nothing else moves. */
  lemma DeviceSchedules(m: Machine, n: u64, kind: EventType)
    ensures multiset(Apply(m, Device(n, kind)).sched.queue)
         == multiset(m.sched.queue) + multiset{Event((m.sched.ticks + n) % U64, kind)}
    ensures multiset(m.sched.queue) == multiset(Apply(m, Cancel(kind)).sched.queue) +
      (match Removed(m.sched.queue, kind) case None => multiset{} case Some(e) => multiset{e})
  {
    hide Insert, Remove, Removed;
    InsertMultiset(m.sched.queue, Event((m.sched.ticks + n) % U64, kind));
    RemoveMultiset(m.sched.queue, kind);
  }

  lemma InQueue(q: Queue, e: Event)
    ensures e in Insert(q, e)
  {
    var k := Position(q, e.time);
    assert Insert(q, e)[k] == e;
  }

  /** A write to VSYNC replaces the half-line event by one that many ticks off. */
  lemma VsyncSchedules(m: Machine, n: u64)
    requires Count(m.sched.queue, ViHalfline) <= 1
    ensures
      var q := Apply(m, WriteVsync(n)).sched.queue;
      Count(q, ViHalfline) == 1 && Event((m.sched.ticks + n) % U64, ViHalfline) in q
  {
    hide Insert, Remove, Count;
    var e := Event((m.sched.ticks + n) % U64, ViHalfline);
    var q := Remove(m.sched.queue, ViHalfline);
    RemoveCount(m.sched.queue, ViHalfline, ViHalfline);
    InsertCount(q, e, ViHalfline);
    InQueue(q, e);
  }

  /** The end of a half-line schedules the next one. */
  lemma HalflineSchedules(m: Machine, n: u64, vi: Halfline)
    requires DoTick(m.sched, n).1.Some? && DoTick(m.sched, n).1.value.kind == ViHalfline
    ensures Event(((m.sched.ticks + n) % U64 + vi.next) % U64, ViHalfline) in Apply(m, Cycles(n, vi)).sched.queue
  {
    hide Insert, RaiseLine;
    var a := Advanced(m, n);
    RaiseIsSched(a, VI);
    var r := if vi.raises then RaiseLine(a, VI) else a;
    InQueue(r.sched.queue, Event((r.sched.ticks + vi.next) % U64, ViHalfline));
  }

  // ----- The timer is on time -----

  /** What Count will read, doubled, when the clock reaches `time`. */
  function CountAt(m: Machine, time: nat): nat { (m.count + time - m.sched.ticks) % COUNT_RANGE }

  /** Every queued timer event is due when Count reaches Compare (doubled in 32 bits). */
  predicate TimerRight(m: Machine) {
    forall i :: 0 <= i < |m.sched.queue| && m.sched.queue[i].kind == CompareInterrupt ==>
      CountAt(m, m.sched.queue[i].time) == (m.compare * 2) % 0x1_0000_0000
  }

  /** No tick count passes 2^64 in the step or by the next timer event. */
  predicate TimerFits(m: Machine, a: Action) {
    m.sched.ticks + (if a.Cycles? then a.n else 0) + COUNT_RANGE < U64
  }

  lemma FreshTimer(m: Machine)
    requires Count(m.sched.queue, CompareInterrupt) <= 1 && m.sched.ticks + COUNT_RANGE < U64
    ensures TimerRight(RescheduleCompare(m))
  {
    hide Insert, Remove, Count, CompareDelay;
    var q := Remove(m.sched.queue, CompareInterrupt);
    RemoveCount(m.sched.queue, CompareInterrupt, CompareInterrupt);
    NoneCounted(q, CompareInterrupt);
    DelayReaches(m);
    var r := RescheduleCompare(m);
    RescheduleIsSched(m);
    forall i | 0 <= i < |r.sched.queue| && r.sched.queue[i].kind == CompareInterrupt
      ensures CountAt(r, r.sched.queue[i].time) == (r.compare * 2) % 0x1_0000_0000
    {
      InsertMembers(q, RescheduledAt(m), i);
    }
  }

  lemma DelayReaches(m: Machine)
    ensures CountAt(m, m.sched.ticks + CompareDelay(m)) == (m.compare * 2) % 0x1_0000_0000
  {}

  /** Queues whose timer events are old ones keep them right. */
  lemma SameTimer(m: Machine, r: Machine)
    requires TimerRight(m) && KindFrom(r.sched.queue, m.sched.queue, CompareInterrupt)
    requires r.count == m.count && r.compare == m.compare && r.sched.ticks == m.sched.ticks
    ensures TimerRight(r)
  {}

  lemma UpdateTimer(m: Machine)
    requires TimerRight(m)
    ensures TimerRight(InterruptUpdate(m))
  {
    hide TimerRight, InterruptUpdate;
    UpdateKinds(m, CompareInterrupt);
    UpdateIsSched(m);
    SameTimer(m, InterruptUpdate(m));
  }

  lemma AdvancedTimer(m: Machine, n: u64)
    requires TimerRight(m) && m.sched.ticks + n < U64
    ensures TimerRight(Advanced(m, n))
  {
    var r := Advanced(m, n);
    forall i | 0 <= i < |r.sched.queue| && r.sched.queue[i].kind == CompareInterrupt
      ensures CountAt(r, r.sched.queue[i].time) == (r.compare * 2) % 0x1_0000_0000
    {
      SameMoment(m.count, m.sched.ticks, n, r.sched.queue[i].time);
    }
  }

  lemma SameMoment(count: nat, ticks: nat, n: nat, time: nat)
    ensures ((count + n) % COUNT_RANGE + time - (ticks + n)) % COUNT_RANGE == (count + time - ticks) % COUNT_RANGE
  {
    var q := (count + n) / COUNT_RANGE;
    assert (count + n) % COUNT_RANGE == count + n - q * COUNT_RANGE;
    Modular(count + time - ticks, -q);
  }

  lemma Modular(x: int, k: int)
    ensures (x + k * COUNT_RANGE) % COUNT_RANGE == x % COUNT_RANGE
  {}

  lemma InsertedTimer(m: Machine, e: Event, q: Queue)
    requires TimerRight(m.(sched := m.sched.(queue := q))) && e.kind != CompareInterrupt
    ensures TimerRight(m.(sched := m.sched.(queue := Insert(q, e))))
  {
    hide Insert;
    forall i | 0 <= i < |Insert(q, e)| && Insert(q, e)[i].kind == CompareInterrupt
      ensures CountAt(m, Insert(q, e)[i].time) == (m.compare * 2) % 0x1_0000_0000
    {
      InsertMembers(q, e, i);
    }
  }

  lemma RemovedTimer(m: Machine, kind: EventType)
    requires TimerRight(m)
    ensures TimerRight(m.(sched := m.sched.(queue := Remove(m.sched.queue, kind))))
  {}

  lemma TimerStep(m: Machine, a: Action)
    requires TimerRight(m) && OwnKindsOnce(m.sched.queue) && ActionOk(a) && TimerFits(m, a)
    ensures TimerRight(Apply(m, a))
  {
    hide TimerRight, InterruptUpdate, RescheduleCompare, Insert, Remove, Count;
    match a
    case Raise(line) =>
      RegistersOnly(m, Changed(m.(intr := m.intr + {line})));
      UpdateTimer(Changed(m.(intr := m.intr + {line})));
    case Lower(line) =>
      RegistersOnly(m, Changed(m.(intr := m.intr - {line})));
      UpdateTimer(Changed(m.(intr := m.intr - {line})));
    case WriteMask(c, s) =>
      RegistersOnly(m, Changed(m.(mask := m.mask - c + s)));
      UpdateTimer(Changed(m.(mask := m.mask - c + s)));
    case WriteStatus(status) =>
      RegistersOnly(m, m.(status := status));
      UpdateTimer(m.(status := status));
    case WriteCause(ip0, ip1) =>
      RegistersOnly(m, m.(ip := WithBit(WithBit(m.ip, IP0, ip0), IP1, ip1)));
      UpdateTimer(m.(ip := WithBit(WithBit(m.ip, IP0, ip0), IP1, ip1)));
    case WriteCompare(v) => FreshTimer(m.(ip := m.ip - {IP7}, compare := v));
    case WriteCount(v) => FreshTimer(m.(count := v * 2));
    case Exception =>
      RegistersOnly(m, m.(status := m.status.(exl := true)));
      UpdateTimer(m.(status := m.status.(exl := true)));
    case Eret =>
      var r := m.(status := if m.status.erl then m.status.(erl := false) else m.status.(exl := false));
      RegistersOnly(m, r);
      UpdateTimer(r);
    case Device(n, kind) => InsertedTimer(m, Event((m.sched.ticks + n) % U64, kind), m.sched.queue);
    case Cancel(kind) => RemovedTimer(m, kind);
    case WriteVsync(n) =>
      RemovedTimer(m, ViHalfline);
      InsertedTimer(m, Event((m.sched.ticks + n) % U64, ViHalfline), Remove(m.sched.queue, ViHalfline));
    case Cycles(n, vi) => TimerCycles(m, n, vi);
  }

  lemma RegistersOnly(m: Machine, r: Machine)
    requires TimerRight(m) && r.sched == m.sched && r.count == m.count && r.compare == m.compare
    ensures TimerRight(r)
  {}

  lemma RaisedTimer(m: Machine, line: Line)
    requires TimerRight(m)
    ensures TimerRight(RaiseLine(m, line))
  {
    hide TimerRight, InterruptUpdate;
    RegistersOnly(m, Changed(m.(intr := m.intr + {line})));
    UpdateTimer(Changed(m.(intr := m.intr + {line})));
  }

  lemma FiredTimer(m: Machine)
    requires Count(m.sched.queue, CompareInterrupt) == 0 && m.sched.ticks + COUNT_RANGE < U64
    ensures TimerRight(RescheduleCompare(InterruptUpdate(m)))
  {
    hide TimerRight, InterruptUpdate, RescheduleCompare, Count;
    UpdateKinds(m, CompareInterrupt);
    UpdateIsSched(m);
    FreshTimer(InterruptUpdate(m));
  }

  lemma TimerCycles(m: Machine, n: u64, vi: Halfline)
    requires TimerRight(m) && OwnKindsOnce(m.sched.queue) && TimerFits(m, Cycles(n, vi))
    ensures TimerRight(Apply(m, Cycles(n, vi)))
  {
    hide TimerRight, InterruptUpdate, RescheduleCompare, RaiseLine, Insert, Count;
    var (sched, e) := DoTick(m.sched, n);
    var m' := Advanced(m, n);
    AdvancedTimer(m, n);
    if e.Some? {
      match e.value.kind
      case CompareInterrupt =>
        PoppedCounts(m.sched.queue, CompareInterrupt);
        FiredTimer(m'.(ip := m'.ip + {IP7}));
      case HandleInterrupt =>
        RegistersOnly(m', m'.(status := m'.status.(exl := true)));
        UpdateTimer(m'.(status := m'.status.(exl := true)));
      case SiDmaComplete => RaisedTimer(m', SI);
      case PiDmaComplete => RaisedTimer(m', PI);
      case ViHalfline =>
        RaisedTimer(m', VI);
        var r := if vi.raises then RaiseLine(m', VI) else m';
        InsertedTimer(r, Event((r.sched.ticks + vi.next) % U64, ViHalfline), r.sched.queue);
      case PiBusWriteComplete =>
      case ResetSystem =>
    }
  }

  predicate TimerAlwaysFits(m: Machine, actions: seq<Action>)
    decreases |actions|
  {
    actions != [] ==> TimerFits(m, actions[0]) && TimerAlwaysFits(Apply(m, actions[0]), actions[1..])
  }

  /** On every run every queued timer event is due when Count reaches Compare, through
      writes to either, the timer firing, and everything else that moves the queue. */
  lemma {:induction false} TimerStaysRight(m: Machine, actions: seq<Action>)
    requires TimerRight(m) && OwnKindsOnce(m.sched.queue) && AllOk(actions) && TimerAlwaysFits(m, actions)
    ensures TimerRight(Play(m, actions))
    decreases |actions|
  {
    hide Apply, TimerRight, OwnKindsOnce, TimerFits;
    if actions != [] {
      TimerStep(m, actions[0]);
      StepKeepsOnce(m, actions[0]);
      TimerStaysRight(Apply(m, actions[0]), actions[1..]);
    }
  }

  /** When the timer fires, Count was Compare at the moment its event was due, exactly for
      values of Compare below 2^31. */
  lemma FiresAtCompare(m: Machine, n: u64)
    requires TimerRight(m) && m.compare < 0x1_0000_0000
    requires DoTick(m.sched, n).1.Some? && DoTick(m.sched, n).1.value.kind == CompareInterrupt
    ensures
      var due := DoTick(m.sched, n).1.value.time;
      && due <= (m.sched.ticks + n) % U64
      && (CountAt(m, due) / 2 == m.compare <==> m.compare < 0x8000_0000)
  {
    assert m.sched.queue[0].kind == CompareInterrupt;
  }
}
