/** Interrupt delivery: MI lines, CP0 Status and Cause, and the one scheduled
    event that takes the exception. Bit fields are the sets of their set bits. */
module Interrupts {
  import opened EventQueue

  datatype Line = SP | SI | AI | VI | PI | DP

  datatype Status = Status(ie: bool, exl: bool, erl: bool, im: set<nat>)

  const IP0: nat := 0
  const IP1: nat := 1
  const IP2: nat := 2
  const IP7: nat := 7

  const COUNT_RANGE: nat := 0x2_0000_0000

  datatype Machine = Machine(
    status: Status,
    ip: set<nat>,
    intr: set<Line>,
    mask: set<Line>,
    count: nat,
    compare: nat,
    sched: Sched)

  /** An interrupt the CPU must take as soon as it can. */
  predicate Deliverable(m: Machine) {
    m.status.ie && !m.status.exl && !m.status.erl && Pending(m)
  }

  predicate Pending(m: Machine) { m.ip * m.status.im != {} }

  // ----- What each operation does -----

  function WithBit(bits: set<nat>, bit: nat, on: bool): set<nat> {
    if on then bits + {bit} else bits - {bit}
  }

  /** Requeue the interrupt event: removed always, added back one tick from now
      while anything enabled is pending. */
  function InterruptUpdate(m: Machine): Machine {
    var q := Remove(m.sched.queue, HandleInterrupt);
    m.(sched := if Pending(m) then DoEnqueue(Sched(m.sched.ticks, q), 1, HandleInterrupt)
                else Sched(m.sched.ticks, q))
  }

  function Changed(m: Machine): Machine {
    m.(ip := WithBit(m.ip, IP2, m.intr * m.mask != {}))
  }

  function InterruptChange(m: Machine): Machine {
    InterruptUpdate(Changed(m))
  }

  /** Cycles until the timer fires; Compare is doubled in 32 bits. */
  function CompareDelay(m: Machine): (n: nat)
    ensures n < COUNT_RANGE
  {
    ((m.compare * 2) % 0x1_0000_0000 - m.count) % COUNT_RANGE
  }

  lemma SameDelay(m: Machine, r: Machine)
    requires r.count == m.count && r.compare == m.compare
    ensures CompareDelay(r) == CompareDelay(m)
  {}

  function RescheduleCompare(m: Machine): Machine {
    m.(sched := DoEnqueue(Sched(m.sched.ticks, Remove(m.sched.queue, CompareInterrupt)), CompareDelay(m), CompareInterrupt))
  }

  function TakeException(m: Machine): Machine {
    InterruptUpdate(m.(status := m.status.(exl := true)))
  }

  function RaiseLine(m: Machine, line: Line): Machine { InterruptChange(m.(intr := m.intr + {line})) }

  /** What the video timing decides at the end of a half-line: whether the VI line is
      raised, and how far off the next half-line is. */
  datatype Halfline = Halfline(raises: bool, next: u64)

  function EndHalfline(m: Machine, vi: Halfline): Machine {
    var m' := if vi.raises then RaiseLine(m, VI) else m;
    m'.(sched := DoEnqueue(m'.sched, vi.next, ViHalfline))
  }

  function HandleEvent(m: Machine, kind: EventType, vi: Halfline): Machine {
    match kind
    case CompareInterrupt => RescheduleCompare(InterruptUpdate(m.(ip := m.ip + {IP7})))
    case HandleInterrupt =>
      if m.status.ie && !m.status.exl && !m.status.erl then TakeException(m) else m
    case SiDmaComplete => RaiseLine(m, SI)
    case PiDmaComplete => RaiseLine(m, PI)
    case ViHalfline => EndHalfline(m, vi)
    case PiBusWriteComplete => m
    case ResetSystem => m
  }

  /** The interrupt exception is taken when the CPU runs `n` cycles. */
  predicate Takes(m: Machine, n: u64) {
    var e := DoTick(m.sched, n).1;
    e.Some? && e.value.kind == HandleInterrupt && m.status.ie && !m.status.exl && !m.status.erl
  }

  datatype Action =
    | Raise(line: Line)
    | Lower(line: Line)
    | WriteMask(clear: set<Line>, set_: set<Line>)
    | WriteStatus(status: Status)
    | WriteCause(ip0: bool, ip1: bool)
    | WriteCompare(compare: nat)
    | WriteCount(count: nat)
    | Exception
    | Eret
    | Device(inTicks: u64, kind: EventType)
    | Cancel(kind: EventType)
    | WriteVsync(inTicks: u64)
    | Cycles(n: u64, vi: Halfline)

  /** The events devices schedule one by one, as transfers and resets are asked for. */
  predicate IsRequest(kind: EventType) {
    kind == SiDmaComplete || kind == PiDmaComplete || kind == PiBusWriteComplete || kind == ResetSystem
  }

  /** Devices schedule only their own events. */
  predicate ActionOk(a: Action) {
    match a
    case Device(_, kind) => IsRequest(kind)
    case Cancel(kind) => IsRequest(kind)
    case _ => true
  }

  function Apply(m: Machine, a: Action): Machine {
    match a
    case Raise(line) => RaiseLine(m, line)
    case Lower(line) => InterruptChange(m.(intr := m.intr - {line}))
    case WriteMask(c, s) => InterruptChange(m.(mask := m.mask - c + s))
    case WriteStatus(status) => InterruptUpdate(m.(status := status))
    case WriteCause(ip0, ip1) => InterruptUpdate(m.(ip := WithBit(WithBit(m.ip, IP0, ip0), IP1, ip1)))
    case WriteCompare(v) => RescheduleCompare(m.(ip := m.ip - {IP7}, compare := v))
    case WriteCount(v) => RescheduleCompare(m.(count := v * 2))
    case Exception => TakeException(m)
    case Eret =>
      InterruptUpdate(m.(status := if m.status.erl then m.status.(erl := false) else m.status.(exl := false)))
    case Device(n, kind) => m.(sched := DoEnqueue(m.sched, n, kind))
    case Cancel(kind) => m.(sched := m.sched.(queue := Remove(m.sched.queue, kind)))
    case WriteVsync(n) => m.(sched := DoEnqueue(Sched(m.sched.ticks, Remove(m.sched.queue, ViHalfline)), n, ViHalfline))
    case Cycles(n, vi) =>
      var (sched, e) := DoTick(m.sched, n);
      var m' := Advanced(m, n);
      if e.Some? then HandleEvent(m', e.value.kind, vi) else m'
  }

  /** The clock `n` cycles on, with the event that fell due out of the queue. */
  function Advanced(m: Machine, n: u64): Machine {
    m.(count := (m.count + n) % COUNT_RANGE, sched := DoTick(m.sched, n).0)
  }

  function Handles(m: Machine): nat { Count(m.sched.queue, HandleInterrupt) }

  // ----- No interrupt is lost -----

  /** At most one interrupt event is queued, and exactly one while an interrupt
      is deliverable. */
  predicate NothingLost(m: Machine) {
    Handles(m) <= 1 && (Deliverable(m) ==> Handles(m) == 1)
  }

  /** Every queued interrupt event is due within one tick. */
  predicate DueNow(m: Machine) {
    forall i :: 0 <= i < |m.sched.queue| && m.sched.queue[i].kind == HandleInterrupt ==>
      m.sched.queue[i].time <= m.sched.ticks + 1
  }

  /** A queued interrupt event has a cause. */
  predicate Justified(m: Machine) {
    Handles(m) > 0 ==> Pending(m)
  }

  lemma UpdateQueues(m: Machine)
    requires Handles(m) <= 1
    ensures var m' := InterruptUpdate(m);
      Handles(m') == (if Pending(m) then 1 else 0) && Pending(m') == Pending(m)
  {
    hide Insert, Remove;
    var q := m.sched.queue;
    RemoveCount(q, HandleInterrupt, HandleInterrupt);
    InsertCount(Remove(q, HandleInterrupt), Event((m.sched.ticks + 1) % U64, HandleInterrupt), HandleInterrupt);
  }

  lemma RescheduleKeepsHandles(m: Machine)
    ensures Handles(RescheduleCompare(m)) == Handles(m)
    ensures RescheduleCompare(m).status == m.status && RescheduleCompare(m).ip == m.ip
  {
    hide Insert, Remove;
    var q := m.sched.queue;
    var e := RescheduledAt(m);
    RemoveCount(q, CompareInterrupt, HandleInterrupt);
    InsertCount(Remove(q, CompareInterrupt), e, HandleInterrupt);
  }

  function RescheduledAt(m: Machine): Event {
    Event((m.sched.ticks + CompareDelay(m)) % U64, CompareInterrupt)
  }

  lemma PopCount(m: Machine, n: u64)
    ensures var (s', e) := DoTick(m.sched, n);
      Count(s'.queue, HandleInterrupt) ==
        Handles(m) - (if e.Some? && e.value.kind == HandleInterrupt then 1 else 0)
  {
    var (s', e) := DoTick(m.sched, n);
    if e.Some? {
      assert m.sched.queue[0] == e.value;
    }
  }

  lemma EnqueueKeepsHandles(m: Machine, n: u64, kind: EventType)
    requires kind != HandleInterrupt
    ensures Handles(m.(sched := DoEnqueue(m.sched, n, kind))) == Handles(m)
  {
    hide Insert, Count;
    InsertCount(m.sched.queue, Event((m.sched.ticks + n) % U64, kind), HandleInterrupt);
  }

  lemma HalflineKeeps(m: Machine, vi: Halfline)
    requires NothingLost(m)
    ensures NothingLost(EndHalfline(m, vi))
    ensures vi.raises || Justified(m) ==> Justified(EndHalfline(m, vi))
  {
    hide Count, InterruptChange;
    ChangeKeeps(m.(intr := m.intr + {VI}));
    EnqueueKeepsHandles(if vi.raises then RaiseLine(m, VI) else m, vi.next, ViHalfline);
  }

  lemma CyclesKeepNothingLost(m: Machine, n: u64, vi: Halfline)
    requires NothingLost(m)
    ensures NothingLost(Apply(m, Cycles(n, vi)))
  {
    hide Count, InterruptUpdate, RescheduleCompare, EndHalfline, InterruptChange;
    PopCount(m, n);
    var (sched, e) := DoTick(m.sched, n);
    var m' := Advanced(m, n);
    if e.Some? {
      match e.value.kind
      case CompareInterrupt =>
        var m1 := m'.(ip := m'.ip + {IP7});
        UpdateQueues(m1);
        RescheduleKeepsHandles(InterruptUpdate(m1));
        UpdateKeepsMasks(m1);
      case HandleInterrupt =>
        UpdateQueues(m'.(status := m'.status.(exl := true)));
        UpdateKeepsMasks(m'.(status := m'.status.(exl := true)));
      case SiDmaComplete => ChangeKeeps(m'.(intr := m'.intr + {SI}));
      case PiDmaComplete => ChangeKeeps(m'.(intr := m'.intr + {PI}));
      case ViHalfline => HalflineKeeps(m', vi);
      case PiBusWriteComplete =>
      case ResetSystem =>
    }
  }

  lemma VsyncKeepsHandles(m: Machine, n: u64)
    ensures Handles(Apply(m, WriteVsync(n))) == Handles(m)
  {
    hide Insert, Remove, Count;
    RemoveCount(m.sched.queue, ViHalfline, HandleInterrupt);
    InsertCount(Remove(m.sched.queue, ViHalfline), Event((m.sched.ticks + n) % U64, ViHalfline), HandleInterrupt);
  }

  lemma UpdateKeepsMasks(m: Machine)
    ensures InterruptUpdate(m).status == m.status && InterruptUpdate(m).ip == m.ip
    ensures InterruptUpdate(m).sched.ticks == m.sched.ticks
  {}

  /** Every operation on the interrupt state keeps every deliverable interrupt queued. */
  lemma NothingLostStep(m: Machine, a: Action)
    requires NothingLost(m) && ActionOk(a)
    ensures NothingLost(Apply(m, a))
  {
    hide Count, InterruptUpdate, RescheduleCompare, Insert, Remove, EndHalfline;
    match a
    case Raise(line) => ChangeKeeps(m.(intr := m.intr + {line}));
    case Lower(line) => ChangeKeeps(m.(intr := m.intr - {line}));
    case WriteMask(c, s) => ChangeKeeps(m.(mask := m.mask - c + s));
    case WriteStatus(status) => UpdateKeeps(m.(status := status));
    case WriteCause(ip0, ip1) => UpdateKeeps(m.(ip := WithBit(WithBit(m.ip, IP0, ip0), IP1, ip1)));
    case WriteCompare(v) =>
      var m1 := m.(ip := m.ip - {IP7}, compare := v);
      RescheduleKeepsHandles(m1);
      assert Pending(m1) ==> Pending(m);
    case WriteCount(v) => RescheduleKeepsHandles(m.(count := v * 2));
    case Exception => UpdateKeeps(m.(status := m.status.(exl := true)));
    case Eret =>
      UpdateKeeps(m.(status := if m.status.erl then m.status.(erl := false) else m.status.(exl := false)));
    case Device(n, kind) => InsertCount(m.sched.queue, Event((m.sched.ticks + n) % U64, kind), HandleInterrupt);
    case Cancel(kind) => RemoveCount(m.sched.queue, kind, HandleInterrupt);
    case WriteVsync(n) => VsyncKeepsHandles(m, n);
    case Cycles(n, vi) => CyclesKeepNothingLost(m, n, vi);
  }

  lemma UpdateKeeps(m: Machine)
    requires Handles(m) <= 1
    ensures NothingLost(InterruptUpdate(m)) && Justified(InterruptUpdate(m))
  {
    hide Count, InterruptUpdate;
    UpdateQueues(m);
    UpdateKeepsMasks(m);
  }

  lemma ChangeKeeps(m: Machine)
    requires Handles(m) <= 1
    ensures NothingLost(InterruptChange(m)) && Justified(InterruptChange(m))
  {
    hide Count, InterruptUpdate;
    UpdateKeeps(Changed(m));
  }

  function Play(m: Machine, actions: seq<Action>): Machine
    decreases |actions|
  {
    if actions == [] then m else Play(Apply(m, actions[0]), actions[1..])
  }

  /** Over every run of MI, CP0, device and scheduler operations, a deliverable
      interrupt always has exactly one event queued. */
  lemma {:induction false} NoInterruptIsLost(m: Machine, actions: seq<Action>)
    requires NothingLost(m) && forall i :: 0 <= i < |actions| ==> ActionOk(actions[i])
    ensures NothingLost(Play(m, actions))
    decreases |actions|
  {
    hide Apply, NothingLost;
    if actions != [] {
      NothingLostStep(m, actions[0]);
      NoInterruptIsLost(Apply(m, actions[0]), actions[1..]);
    }
  }

  // ----- It is delivered within one tick -----

  predicate NoWrapStep(m: Machine, a: Action) {
    m.sched.ticks + 1 < U64 && (a.Cycles? ==> m.sched.ticks + a.n + 1 < U64)
  }

  predicate HandlesDueBy(q: Queue, time: nat) {
    forall i :: 0 <= i < |q| && q[i].kind == HandleInterrupt ==> q[i].time <= time
  }

  lemma InsertDue(q: Queue, e: Event, time: nat)
    requires HandlesDueBy(q, time) && (e.kind == HandleInterrupt ==> e.time <= time)
    ensures HandlesDueBy(Insert(q, e), time)
  {
    hide Insert;
    forall i | 0 <= i < |Insert(q, e)| && Insert(q, e)[i].kind == HandleInterrupt
      ensures Insert(q, e)[i].time <= time
    {
      InsertMembers(q, e, i);
    }
  }

  lemma RemoveDue(q: Queue, kind: EventType, time: nat)
    requires HandlesDueBy(q, time)
    ensures HandlesDueBy(Remove(q, kind), time)
  {}

  lemma UpdateDue(m: Machine)
    requires m.sched.ticks + 1 < U64 && HandlesDueBy(m.sched.queue, m.sched.ticks + 1)
    ensures HandlesDueBy(InterruptUpdate(m).sched.queue, m.sched.ticks + 1)
    ensures InterruptUpdate(m).sched.ticks == m.sched.ticks
  {
    hide HandlesDueBy, Insert, Remove;
    var q := Remove(m.sched.queue, HandleInterrupt);
    RemoveDue(m.sched.queue, HandleInterrupt, m.sched.ticks + 1);
    InsertDue(q, Event((m.sched.ticks + 1) % U64, HandleInterrupt), m.sched.ticks + 1);
  }

  lemma RescheduleDue(m: Machine, time: nat)
    requires HandlesDueBy(m.sched.queue, time)
    ensures HandlesDueBy(RescheduleCompare(m).sched.queue, time)
    ensures RescheduleCompare(m).sched.ticks == m.sched.ticks
  {
    hide HandlesDueBy, Insert, Remove;
    RemoveDue(m.sched.queue, CompareInterrupt, time);
    InsertDue(Remove(m.sched.queue, CompareInterrupt), RescheduledAt(m), time);
  }

  lemma CyclesDue(m: Machine, n: u64, vi: Halfline)
    requires DueNow(m) && NoWrapStep(m, Cycles(n, vi))
    ensures DueNow(Apply(m, Cycles(n, vi)))
  {
    hide InterruptUpdate, RescheduleCompare, InterruptChange, Insert;
    var (sched, e) := DoTick(m.sched, n);
    var m' := Advanced(m, n);
    assert HandlesDueBy(sched.queue, sched.ticks + 1);
    if e.Some? {
      match e.value.kind
      case CompareInterrupt =>
        var m1 := m'.(ip := m'.ip + {IP7});
        UpdateDue(m1);
        RescheduleDue(InterruptUpdate(m1), sched.ticks + 1);
      case HandleInterrupt => UpdateDue(m'.(status := m'.status.(exl := true)));
      case SiDmaComplete => ChangeDue(m'.(intr := m'.intr + {SI}));
      case PiDmaComplete => ChangeDue(m'.(intr := m'.intr + {PI}));
      case ViHalfline =>
        ChangeDue(m'.(intr := m'.intr + {VI}));
        var r := if vi.raises then RaiseLine(m', VI) else m';
        InsertDue(r.sched.queue, Event((r.sched.ticks + vi.next) % U64, ViHalfline), sched.ticks + 1);
      case PiBusWriteComplete =>
      case ResetSystem =>
    }
  }

  /** While no tick count wraps, a queued interrupt event stays due within a tick. */
  lemma DueNowStep(m: Machine, a: Action)
    requires DueNow(m) && ActionOk(a) && NoWrapStep(m, a)
    ensures DueNow(Apply(m, a))
  {
    hide InterruptUpdate, RescheduleCompare, Insert, Remove;
    var t := m.sched.ticks + 1;
    assert HandlesDueBy(m.sched.queue, t);
    match a
    case Raise(line) => ChangeDue(m.(intr := m.intr + {line}));
    case Lower(line) => ChangeDue(m.(intr := m.intr - {line}));
    case WriteMask(c, s) => ChangeDue(m.(mask := m.mask - c + s));
    case WriteStatus(status) => UpdateDue(m.(status := status));
    case WriteCause(ip0, ip1) => UpdateDue(m.(ip := WithBit(WithBit(m.ip, IP0, ip0), IP1, ip1)));
    case WriteCompare(v) => RescheduleDue(m.(ip := m.ip - {IP7}, compare := v), t);
    case WriteCount(v) => RescheduleDue(m.(count := v * 2), t);
    case Exception => UpdateDue(m.(status := m.status.(exl := true)));
    case Eret =>
      UpdateDue(m.(status := if m.status.erl then m.status.(erl := false) else m.status.(exl := false)));
    case Device(n, kind) => InsertDue(m.sched.queue, Event((m.sched.ticks + n) % U64, kind), t);
    case Cancel(kind) => RemoveDue(m.sched.queue, kind, t);
    case WriteVsync(n) =>
      RemoveDue(m.sched.queue, ViHalfline, t);
      InsertDue(Remove(m.sched.queue, ViHalfline), Event((m.sched.ticks + n) % U64, ViHalfline), t);
    case Cycles(n, vi) => CyclesDue(m, n, vi);
  }

  lemma ChangeDue(m: Machine)
    requires m.sched.ticks + 1 < U64 && HandlesDueBy(m.sched.queue, m.sched.ticks + 1)
    ensures HandlesDueBy(InterruptChange(m).sched.queue, m.sched.ticks + 1)
    ensures InterruptChange(m).sched.ticks == m.sched.ticks
  {
    hide HandlesDueBy, InterruptUpdate;
    UpdateDue(Changed(m));
  }

  // ----- Spurious interrupts: the Compare write -----

  /** Of all operations only a Compare write can leave an interrupt event queued
      with nothing pending, and it does so exactly when IP7 was the only cause. */
  lemma OnlyCompareUnjustifies(m: Machine, a: Action)
    requires NothingLost(m) && Justified(m) && ActionOk(a)
    ensures Justified(Apply(m, a)) <==>
      !(a.WriteCompare? && Handles(m) > 0 && (m.ip - {IP7}) * m.status.im == {})
  {
    hide Count, InterruptUpdate, RescheduleCompare, Insert, Remove, EndHalfline;
    match a
    case Raise(line) => ChangeKeeps(m.(intr := m.intr + {line}));
    case Lower(line) => ChangeKeeps(m.(intr := m.intr - {line}));
    case WriteMask(c, s) => ChangeKeeps(m.(mask := m.mask - c + s));
    case WriteStatus(status) => UpdateKeeps(m.(status := status));
    case WriteCause(ip0, ip1) => UpdateKeeps(m.(ip := WithBit(WithBit(m.ip, IP0, ip0), IP1, ip1)));
    case WriteCompare(v) => RescheduleKeepsHandles(m.(ip := m.ip - {IP7}, compare := v));
    case WriteCount(v) => RescheduleKeepsHandles(m.(count := v * 2));
    case Exception => UpdateKeeps(m.(status := m.status.(exl := true)));
    case Eret =>
      UpdateKeeps(m.(status := if m.status.erl then m.status.(erl := false) else m.status.(exl := false)));
    case Device(n, kind) => InsertCount(m.sched.queue, Event((m.sched.ticks + n) % U64, kind), HandleInterrupt);
    case Cancel(kind) => RemoveCount(m.sched.queue, kind, HandleInterrupt);
    case WriteVsync(n) => VsyncKeepsHandles(m, n);
    case Cycles(n, vi) => CyclesKeepJustified(m, n, vi);
  }

  lemma CyclesKeepJustified(m: Machine, n: u64, vi: Halfline)
    requires NothingLost(m) && Justified(m)
    ensures Justified(Apply(m, Cycles(n, vi)))
  {
    hide Count, InterruptUpdate, RescheduleCompare, EndHalfline, InterruptChange;
    PopCount(m, n);
    var (sched, e) := DoTick(m.sched, n);
    var m' := Advanced(m, n);
    if e.Some? {
      match e.value.kind
      case CompareInterrupt =>
        var m1 := m'.(ip := m'.ip + {IP7});
        UpdateKeeps(m1);
        RescheduleKeepsHandles(InterruptUpdate(m1));
      case HandleInterrupt => UpdateKeeps(m'.(status := m'.status.(exl := true)));
      case SiDmaComplete => ChangeKeeps(m'.(intr := m'.intr + {SI}));
      case PiDmaComplete => ChangeKeeps(m'.(intr := m'.intr + {PI}));
      case ViHalfline => HalflineKeeps(m', vi);
      case PiBusWriteComplete =>
      case ResetSystem =>
    }
  }

  lemma TakenHasCause(m: Machine, n: u64)
    requires Justified(m) && Takes(m, n)
    ensures Pending(m)
  {
    assert m.sched.queue[0].kind == HandleInterrupt;
  }

  // ----- The timer -----

  /** The timer is promised for the moment Count reaches Compare. Doubling Compare
      in 32 bits drops its top bit, so the promise holds exactly for values below 2^31. */
  lemma TimerMatchesIff(m: Machine)
    requires m.count < COUNT_RANGE && m.compare < 0x1_0000_0000
    ensures ((m.count + CompareDelay(m)) % COUNT_RANGE) / 2 == m.compare <==> m.compare < 0x8000_0000
  {
    var target := (m.compare * 2) % 0x1_0000_0000;
    assert (m.count + CompareDelay(m)) % COUNT_RANGE == target;
  }
}
