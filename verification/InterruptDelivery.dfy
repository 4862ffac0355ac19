/** A deliverable interrupt is taken within a bounded number of clock steps, whatever
    events wait in front of it and whatever their handlers do. */
module InterruptDelivery {
  import opened EventQueue
  import opened Interrupts
  import opened InterruptPool

  // ----- The queue over a run -----

  lemma UpdateSorted(m: Machine)
    requires Sorted(m.sched.queue)
    ensures Sorted(InterruptUpdate(m).sched.queue)
  {
    hide Sorted, Insert, Remove;
    RemoveSorted(m.sched.queue, HandleInterrupt);
    InsertSorted(Remove(m.sched.queue, HandleInterrupt), Event((m.sched.ticks + 1) % U64, HandleInterrupt));
  }

  lemma RescheduleSorted(m: Machine)
    requires Sorted(m.sched.queue)
    ensures Sorted(RescheduleCompare(m).sched.queue)
  {
    hide Sorted, Insert, Remove;
    RemoveSorted(m.sched.queue, CompareInterrupt);
    InsertSorted(Remove(m.sched.queue, CompareInterrupt), RescheduledAt(m));
  }

  lemma CyclesSorted(m: Machine, n: u64, vi: Halfline)
    requires Sorted(m.sched.queue)
    ensures Sorted(Apply(m, Cycles(n, vi)).sched.queue)
  {
    hide InterruptUpdate, RescheduleCompare, Insert;
    var (sched, e) := DoTick(m.sched, n);
    assert Sorted(sched.queue);
    hide Sorted;
    var m' := Advanced(m, n);
    if e.Some? {
      match e.value.kind
      case CompareInterrupt =>
        var m1 := m'.(ip := m'.ip + {IP7});
        UpdateSorted(m1);
        RescheduleSorted(InterruptUpdate(m1));
      case HandleInterrupt => UpdateSorted(m'.(status := m'.status.(exl := true)));
      case SiDmaComplete => UpdateSorted(Changed(m'.(intr := m'.intr + {SI})));
      case PiDmaComplete => UpdateSorted(Changed(m'.(intr := m'.intr + {PI})));
      case ViHalfline =>
        UpdateSorted(Changed(m'.(intr := m'.intr + {VI})));
        var r := if vi.raises then RaiseLine(m', VI) else m';
        InsertSorted(r.sched.queue, Event((r.sched.ticks + vi.next) % U64, ViHalfline));
      case PiBusWriteComplete =>
      case ResetSystem =>
    }
  }

  lemma StepSorted(m: Machine, a: Action)
    requires Sorted(m.sched.queue)
    ensures Sorted(Apply(m, a).sched.queue)
  {
    hide Sorted, InterruptUpdate, RescheduleCompare, Insert, Remove;
    match a
    case Raise(line) => UpdateSorted(Changed(m.(intr := m.intr + {line})));
    case Lower(line) => UpdateSorted(Changed(m.(intr := m.intr - {line})));
    case WriteMask(c, s) => UpdateSorted(Changed(m.(mask := m.mask - c + s)));
    case WriteStatus(status) => UpdateSorted(m.(status := status));
    case WriteCause(ip0, ip1) => UpdateSorted(m.(ip := WithBit(WithBit(m.ip, IP0, ip0), IP1, ip1)));
    case WriteCompare(v) => RescheduleSorted(m.(ip := m.ip - {IP7}, compare := v));
    case WriteCount(v) => RescheduleSorted(m.(count := v * 2));
    case Exception => UpdateSorted(m.(status := m.status.(exl := true)));
    case Eret =>
      UpdateSorted(m.(status := if m.status.erl then m.status.(erl := false) else m.status.(exl := false)));
    case Device(n, kind) => InsertSorted(m.sched.queue, Event((m.sched.ticks + n) % U64, kind));
    case Cancel(kind) => RemoveSorted(m.sched.queue, kind);
    case WriteVsync(n) =>
      RemoveSorted(m.sched.queue, ViHalfline);
      InsertSorted(Remove(m.sched.queue, ViHalfline), Event((m.sched.ticks + n) % U64, ViHalfline));
    case Cycles(n, vi) => CyclesSorted(m, n, vi);
  }

  predicate NeverWraps(m: Machine, actions: seq<Action>)
    decreases |actions|
  {
    actions != [] ==> NoWrapStep(m, actions[0]) && NeverWraps(Apply(m, actions[0]), actions[1..])
  }

  /** On every run the queue stays sorted and, while no tick count wraps, a queued
      interrupt event stays due within a tick. */
  lemma {:induction false} StaysDue(m: Machine, actions: seq<Action>)
    requires Sorted(m.sched.queue) && DueNow(m) && AllOk(actions) && NeverWraps(m, actions)
    ensures Sorted(Play(m, actions).sched.queue) && DueNow(Play(m, actions))
    decreases |actions|
  {
    hide Apply, Sorted, DueNow, NoWrapStep;
    if actions != [] {
      StepSorted(m, actions[0]);
      DueNowStep(m, actions[0]);
      StaysDue(Apply(m, actions[0]), actions[1..]);
    }
  }

  // ----- What one clock step does to a waiting interrupt -----

  /** IP2 is the masked MI lines. */
  predicate LineUp(m: Machine) { IP2 in m.ip <==> m.intr * m.mask != {} }

  lemma UpdateIsSched(m: Machine)
    ensures InterruptUpdate(m) == m.(sched := InterruptUpdate(m).sched)
    ensures InterruptUpdate(m).sched.ticks == m.sched.ticks
  {}

  lemma RescheduleIsSched(m: Machine)
    ensures RescheduleCompare(m) == m.(sched := RescheduleCompare(m).sched)
    ensures RescheduleCompare(m).sched.ticks == m.sched.ticks
  {}

  lemma RaiseIsSched(m: Machine, line: Line)
    ensures
      var c := Changed(m.(intr := m.intr + {line}));
      RaiseLine(m, line) == c.(sched := RaiseLine(m, line).sched) && RaiseLine(m, line).sched.ticks == m.sched.ticks
  {
    hide InterruptUpdate;
    UpdateIsSched(Changed(m.(intr := m.intr + {line})));
  }

  lemma StepKeepsLineUp(m: Machine, a: Action)
    requires LineUp(m)
    ensures LineUp(Apply(m, a))
  {
    hide InterruptUpdate, RescheduleCompare, RaiseLine;
    match a
    case Raise(line) => RaiseIsSched(m, line);
    case Lower(line) => UpdateIsSched(Changed(m.(intr := m.intr - {line})));
    case WriteMask(c, s) => UpdateIsSched(Changed(m.(mask := m.mask - c + s)));
    case WriteStatus(status) => UpdateIsSched(m.(status := status));
    case WriteCause(ip0, ip1) => UpdateIsSched(m.(ip := WithBit(WithBit(m.ip, IP0, ip0), IP1, ip1)));
    case WriteCompare(v) => RescheduleIsSched(m.(ip := m.ip - {IP7}, compare := v));
    case WriteCount(v) => RescheduleIsSched(m.(count := v * 2));
    case Exception => UpdateIsSched(m.(status := m.status.(exl := true)));
    case Eret =>
      UpdateIsSched(m.(status := if m.status.erl then m.status.(erl := false) else m.status.(exl := false)));
    case Device(_, _) =>
    case Cancel(_) =>
    case WriteVsync(_) =>
    case Cycles(n, vi) => CyclesKeepLineUp(m, n, vi);
  }

  lemma CyclesKeepLineUp(m: Machine, n: u64, vi: Halfline)
    requires LineUp(m)
    ensures LineUp(Apply(m, Cycles(n, vi)))
  {
    hide InterruptUpdate, RescheduleCompare, RaiseLine;
    var (sched, e) := DoTick(m.sched, n);
    var m' := Advanced(m, n);
    if e.Some? {
      match e.value.kind
      case CompareInterrupt =>
        var m1 := m'.(ip := m'.ip + {IP7});
        UpdateIsSched(m1);
        RescheduleIsSched(InterruptUpdate(m1));
      case HandleInterrupt => UpdateIsSched(m'.(status := m'.status.(exl := true)));
      case SiDmaComplete => RaiseIsSched(m', SI);
      case PiDmaComplete => RaiseIsSched(m', PI);
      case ViHalfline => RaiseIsSched(m', VI);
      case PiBusWriteComplete =>
      case ResetSystem =>
    }
  }

  /** What every run keeps. */
  predicate Orderly(m: Machine) {
    Sorted(m.sched.queue) && DueNow(m) && OwnKindsOnce(m.sched.queue) && LineUp(m)
  }

  lemma StepKeepsOrderly(m: Machine, a: Action)
    requires Orderly(m) && ActionOk(a) && NoWrapStep(m, a)
    ensures Orderly(Apply(m, a))
  {
    hide Apply, Sorted, DueNow, OwnKindsOnce, LineUp;
    StepSorted(m, a);
    DueNowStep(m, a);
    StepKeepsOnce(m, a);
    StepKeepsLineUp(m, a);
  }

  lemma {:induction false} RunKeepsOrderly(m: Machine, actions: seq<Action>)
    requires Orderly(m) && AllOk(actions) && NeverWraps(m, actions)
    ensures Orderly(Play(m, actions))
    decreases |actions|
  {
    hide Apply, Orderly, NoWrapStep;
    if actions != [] {
      StepKeepsOrderly(m, actions[0]);
      RunKeepsOrderly(Apply(m, actions[0]), actions[1..]);
    }
  }

  /** The events of one kind in `q` all come from `p`. */
  predicate KindFrom(q: Queue, p: Queue, kind: EventType) {
    forall i :: 0 <= i < |q| && q[i].kind == kind ==> q[i] in p
  }

  lemma UpdateKinds(m: Machine, kind: EventType)
    requires kind != HandleInterrupt
    ensures KindFrom(InterruptUpdate(m).sched.queue, m.sched.queue, kind)
    ensures Count(InterruptUpdate(m).sched.queue, kind) == Count(m.sched.queue, kind)
  {
    hide Insert, Count;
    var q := Remove(m.sched.queue, HandleInterrupt);
    var e := Event((m.sched.ticks + 1) % U64, HandleInterrupt);
    RemoveCount(m.sched.queue, HandleInterrupt, kind);
    InsertCount(q, e, kind);
    forall i | 0 <= i < |Insert(q, e)| && Insert(q, e)[i].kind == kind ensures Insert(q, e)[i] in m.sched.queue {
      InsertMembers(q, e, i);
    }
  }

  /** Pending requests of the devices. */
  function Requests(q: Queue): nat {
    Count(q, SiDmaComplete) + Count(q, PiDmaComplete) + Count(q, PiBusWriteComplete) + Count(q, ResetSystem)
  }

  /** A deliverable interrupt, queued once. */
  predicate Waiting(m: Machine) { Deliverable(m) && Handles(m) == 1 && Orderly(m) }

  /** While the interrupt waits, the head of the queue is due at every step; if it is the
      interrupt event, the exception is taken. */
  lemma HeadIsDue(m: Machine, n: u64)
    requires Waiting(m) && n > 0 && m.sched.ticks + n + 1 < U64
    ensures m.sched.queue != [] && m.sched.queue[0].time <= m.sched.ticks + 1
    ensures DoTick(m.sched, n) == (Sched(m.sched.ticks + n, m.sched.queue[1..]), Some(m.sched.queue[0]))
    ensures Takes(m, n) <==> m.sched.queue[0].kind == HandleInterrupt
  {
    var q := m.sched.queue;
    NoneCounted(q, HandleInterrupt);
    var p :| 0 <= p < |q| && q[p].kind == HandleInterrupt;
    assert q[0].time <= q[p].time <= m.sched.ticks + 1;
  }

  lemma HeadIsHandled(m: Machine, n: u64, vi: Halfline)
    requires Waiting(m) && n > 0 && m.sched.ticks + n + 1 < U64
    ensures m.sched.queue != []
    ensures Apply(m, Cycles(n, vi)) == HandleEvent(Advanced(m, n), m.sched.queue[0].kind, vi)
    ensures Advanced(m, n).sched == Sched(m.sched.ticks + n, m.sched.queue[1..])
    ensures OwnKindsOnce(m.sched.queue[1..])
  {
    HeadIsDue(m, n);
    PoppedCounts(m.sched.queue, CompareInterrupt);
    PoppedCounts(m.sched.queue, HandleInterrupt);
    PoppedCounts(m.sched.queue, ViHalfline);
    hide HandleEvent, Count;
  }

  lemma PoppedCounts(q: Queue, kind: EventType)
    requires q != []
    ensures Count(q[1..], kind) == Count(q, kind) - (if q[0].kind == kind then 1 else 0)
  {}

  lemma StaysDeliverable(m: Machine, c: Machine, line: Line)
    requires Deliverable(m) && LineUp(m) && c.status == m.status && c.ip == m.ip && c.intr == m.intr && c.mask == m.mask
    ensures Deliverable(Changed(c.(intr := c.intr + {line})))
  {
    var b :| b in m.ip * m.status.im;
    assert m.intr * m.mask <= (c.intr + {line}) * c.mask;
    assert b in Changed(c.(intr := c.intr + {line})).ip;
  }

  lemma StillWaiting(m: Machine, n: u64, vi: Halfline)
    requires Waiting(m) && NoWrapStep(m, Cycles(n, vi)) && Deliverable(Apply(m, Cycles(n, vi)))
    ensures Waiting(Apply(m, Cycles(n, vi)))
  {
    hide Apply, Orderly, NoWrapStep, Deliverable;
    assert NothingLost(m);
    NothingLostStep(m, Cycles(n, vi));
    StepKeepsOrderly(m, Cycles(n, vi));
  }

  /** What a step keeps of the timer and the half-line events, apart from those it
      handles: they come from the old queue, and time moves on for all alike. */
  predicate Carries(m: Machine, m': Machine, n: u64, kind: EventType) {
    && m'.sched.ticks == m.sched.ticks + n
    && CompareDelay(m') == CompareDelay(Advanced(m, n))
    && KindFrom(m'.sched.queue, m.sched.queue, kind)
  }

  lemma RaiseDelivers(m: Machine, n: u64, line: Line)
    requires Waiting(m) && n > 0 && m.sched.ticks + n + 1 < U64
    requires m.sched.queue != [] && m.sched.queue[0].kind != HandleInterrupt
    ensures
      var m' := RaiseLine(Advanced(m, n), line);
      && Deliverable(m')
      && Carries(m, m', n, CompareInterrupt) && Carries(m, m', n, ViHalfline)
      && Requests(m'.sched.queue) == Requests(m.sched.queue[1..])
  {
    HeadIsDue(m, n);
    hide InterruptUpdate, Count;
    var a := Advanced(m, n);
    var c := Changed(a.(intr := a.intr + {line}));
    StaysDeliverable(m, a, line);
    UpdateIsSched(c);
    UpdateKinds(c, CompareInterrupt);
    UpdateKinds(c, ViHalfline);
    UpdateKinds(c, SiDmaComplete);
    UpdateKinds(c, PiDmaComplete);
    UpdateKinds(c, PiBusWriteComplete);
    UpdateKinds(c, ResetSystem);
  }

  /** A device request in front is delivered, its line raised, the interrupt still waits
      and one request fewer is pending. */
  lemma RequestStep(m: Machine, n: u64, vi: Halfline)
    requires Waiting(m) && n > 0 && NoWrapStep(m, Cycles(n, vi))
    requires m.sched.queue != [] && IsRequest(m.sched.queue[0].kind)
    ensures
      var m' := Apply(m, Cycles(n, vi));
      && Waiting(m')
      && Carries(m, m', n, CompareInterrupt) && Carries(m, m', n, ViHalfline)
      && Requests(m'.sched.queue) == Requests(m.sched.queue) - 1
  {
    HeadIsDue(m, n);
    var q := m.sched.queue;
    PoppedRequests(q);
    hide RaiseLine, Count, Orderly, Requests;
    if q[0].kind == SiDmaComplete {
      RaiseDelivers(m, n, SI);
    } else if q[0].kind == PiDmaComplete {
      RaiseDelivers(m, n, PI);
    }
    StillWaiting(m, n, vi);
  }

  /** A half-line event in front is handled and queued again behind the interrupt. */
  lemma VideoStep(m: Machine, n: u64, vi: Halfline)
    requires Waiting(m) && n > 0 && NoWrapStep(m, Cycles(n, vi)) && m.sched.ticks + n + vi.next < U64
    requires m.sched.queue != [] && m.sched.queue[0].kind == ViHalfline
    ensures
      var m' := Apply(m, Cycles(n, vi));
      && Waiting(m')
      && Carries(m, m', n, CompareInterrupt)
      && Requests(m'.sched.queue) == Requests(m.sched.queue)
      && VideoAfter(m', m.sched.ticks + n + vi.next - 1)
  {
    hide Apply, RaiseLine, Count, Insert, Requests, KindFrom, VideoAfter, CompareDelay, Advanced, DueNow, Sorted, Deliverable;
    HeadIsHandled(m, n, vi);
    var q, a := m.sched.queue, Advanced(m, n);
    PoppedCounts(q, ViHalfline);
    PoppedRequests(q);
    var r := if vi.raises then RaiseLine(a, VI) else a;
    RaiseDelivers(m, n, VI);
    RaiseIsSched(a, VI);
    RaiseKeepsOnce(a, VI);
    PlainStep(m, n);
    Restarted(r, vi.next);
    SameFrom(r.(sched := DoEnqueue(r.sched, vi.next, ViHalfline)), r, q, CompareInterrupt);
    StillDeliverable(r, r.(sched := DoEnqueue(r.sched, vi.next, ViHalfline)));
    hide Orderly;
    StillWaiting(m, n, vi);
  }

  lemma SameFrom(m: Machine, r: Machine, q: Queue, kind: EventType)
    requires KindFrom(m.sched.queue, r.sched.queue, kind) && KindFrom(r.sched.queue, q, kind)
    ensures KindFrom(m.sched.queue, q, kind)
  {}

  lemma StillDeliverable(m: Machine, r: Machine)
    requires Deliverable(m) && r.status == m.status && r.ip == m.ip
    ensures Deliverable(r)
  {}

  /** A step that only takes the head off. */
  lemma PlainStep(m: Machine, n: u64)
    requires Waiting(m) && n > 0 && m.sched.ticks + n + 1 < U64
    ensures var a := Advanced(m, n);
      && Deliverable(a) && a.sched.ticks == m.sched.ticks + n
      && KindFrom(a.sched.queue, m.sched.queue, CompareInterrupt) && KindFrom(a.sched.queue, m.sched.queue, ViHalfline)
  {
    HeadIsDue(m, n);
  }

  lemma PoppedRequests(q: Queue)
    requires q != []
    ensures Requests(q[1..]) == Requests(q) - (if IsRequest(q[0].kind) then 1 else 0)
  {
    PoppedCounts(q, SiDmaComplete);
    PoppedCounts(q, PiDmaComplete);
    PoppedCounts(q, PiBusWriteComplete);
    PoppedCounts(q, ResetSystem);
    hide Count;
  }

  /** Queueing the next half-line. */
  lemma Restarted(r: Machine, next: u64)
    requires Count(r.sched.queue, ViHalfline) == 0 && r.sched.ticks + next < U64
    ensures
      var r' := r.(sched := DoEnqueue(r.sched, next, ViHalfline));
      && Requests(r'.sched.queue) == Requests(r.sched.queue)
      && KindFrom(r'.sched.queue, r.sched.queue, CompareInterrupt)
      && VideoAfter(r', r.sched.ticks + next - 1)
      && CompareDelay(r') == CompareDelay(r)
  {
    NoneCounted(r.sched.queue, ViHalfline);
    hide Insert, Count;
    var e := Event(r.sched.ticks + next, ViHalfline);
    InsertCount(r.sched.queue, e, SiDmaComplete);
    InsertCount(r.sched.queue, e, PiDmaComplete);
    InsertCount(r.sched.queue, e, PiBusWriteComplete);
    InsertCount(r.sched.queue, e, ResetSystem);
    forall i | 0 <= i < |Insert(r.sched.queue, e)|
      ensures Insert(r.sched.queue, e)[i] == e || Insert(r.sched.queue, e)[i] in r.sched.queue
    {
      InsertMembers(r.sched.queue, e, i);
    }
  }

  /** Every half-line event is later than `time`. */
  predicate VideoAfter(m: Machine, time: int) {
    forall i :: 0 <= i < |m.sched.queue| && m.sched.queue[i].kind == ViHalfline ==> m.sched.queue[i].time > time
  }

  /** The timer event in front fires and is queued again, alone of its kind, as far off
      as Count is from twice Compare. */
  lemma TimerStep(m: Machine, n: u64, vi: Halfline)
    requires Waiting(m) && n > 0 && NoWrapStep(m, Cycles(n, vi)) && m.sched.ticks + n + COUNT_RANGE < U64
    requires m.sched.queue != [] && m.sched.queue[0].kind == CompareInterrupt
    ensures
      var m' := Apply(m, Cycles(n, vi));
      && Waiting(m')
      && Carries(m, m', n, ViHalfline)
      && Requests(m'.sched.queue) == Requests(m.sched.queue)
      && TimerAt(m', m.sched.ticks + n + CompareDelay(m'))
  {
    hide Apply, Count, Insert, Remove, InterruptUpdate, RescheduleCompare, KindFrom, TimerAt, CompareDelay, DueNow, Sorted, Deliverable;
    HeadIsHandled(m, n, vi);
    PlainStep(m, n);
    var q, a := m.sched.queue, Advanced(m, n);
    var fired := a.(ip := a.ip + {IP7});
    PoppedCounts(q, CompareInterrupt);
    MorePending(a, fired);
    UpdateIsSched(fired);
    var u := InterruptUpdate(fired);
    RescheduleIsSched(u);
    FiredRequests(q, fired, SiDmaComplete);
    FiredRequests(q, fired, PiDmaComplete);
    FiredRequests(q, fired, PiBusWriteComplete);
    FiredRequests(q, fired, ResetSystem);
    UpdateKinds(fired, ViHalfline);
    UpdateKinds(fired, CompareInterrupt);
    RescheduleKinds(u, ViHalfline);
    RescheduledAlone(u);
    SameFrom(u, fired, q, ViHalfline);
    SameFrom(RescheduleCompare(u), u, q, ViHalfline);
    SameDelay(fired, RescheduleCompare(u));
    SameDelay(fired, u);
    SameDelay(a, fired);
    StillDeliverable(fired, RescheduleCompare(u));
    hide Orderly;
    StillWaiting(m, n, vi);
  }

  lemma MorePending(m: Machine, r: Machine)
    requires Deliverable(m) && r.status == m.status && m.ip <= r.ip
    ensures Deliverable(r)
  {
    var b :| b in m.ip * m.status.im;
    assert b in r.ip * r.status.im;
  }

  /** Every timer event is due at `time`. */
  predicate TimerAt(m: Machine, time: int) {
    forall i :: 0 <= i < |m.sched.queue| && m.sched.queue[i].kind == CompareInterrupt ==> m.sched.queue[i].time == time
  }

  lemma RescheduleKinds(m: Machine, kind: EventType)
    requires kind != CompareInterrupt
    ensures KindFrom(RescheduleCompare(m).sched.queue, m.sched.queue, kind)
    ensures Count(RescheduleCompare(m).sched.queue, kind) == Count(m.sched.queue, kind)
  {
    hide Insert, Count, CompareDelay;
    var q := Remove(m.sched.queue, CompareInterrupt);
    var e := RescheduledAt(m);
    RemoveCount(m.sched.queue, CompareInterrupt, kind);
    InsertCount(q, e, kind);
    forall i | 0 <= i < |Insert(q, e)| && Insert(q, e)[i].kind == kind ensures Insert(q, e)[i] in m.sched.queue {
      InsertMembers(q, e, i);
    }
  }

  lemma FiredRequests(q: Queue, fired: Machine, kind: EventType)
    requires q != [] && fired.sched.queue == q[1..] && q[0].kind != kind
    requires kind != CompareInterrupt && kind != HandleInterrupt
    ensures Count(RescheduleCompare(InterruptUpdate(fired)).sched.queue, kind) == Count(q, kind)
  {
    PoppedCounts(q, kind);
    hide Count, InterruptUpdate, RescheduleCompare;
    UpdateKinds(fired, kind);
    RescheduleKinds(InterruptUpdate(fired), kind);
  }

  lemma RescheduledAlone(m: Machine)
    requires Count(m.sched.queue, CompareInterrupt) == 0 && m.sched.ticks + COUNT_RANGE < U64
    ensures TimerAt(RescheduleCompare(m), m.sched.ticks + CompareDelay(m))
  {
    NoneCounted(m.sched.queue, CompareInterrupt);
    NothingToRemove(m.sched.queue, CompareInterrupt);
    hide Insert, Remove, Count, CompareDelay;
    var e := RescheduledAt(m);
    forall i | 0 <= i < |Insert(m.sched.queue, e)| && Insert(m.sched.queue, e)[i].kind == CompareInterrupt
      ensures Insert(m.sched.queue, e)[i] == e
    {
      InsertMembers(m.sched.queue, e, i);
    }
  }

  // ----- How often the timer and the half-line can come first -----

  /** Within the window from tick `s` to tick `e`, a timer event at `t` can fire at most
      `k` times: not at all past the window; at most twice if it follows Count; once if
      it also is overdue, since it then comes back a whole range of Count later. */
  predicate RankOf(m: Machine, t: int, s: nat, e: nat, k: nat) {
    || t > e || k >= 3
    || (t >= s && (t - m.sched.ticks) % COUNT_RANGE == CompareDelay(m) && (k >= 2 || (k >= 1 && t <= m.sched.ticks)))
  }

  predicate TimerRank(m: Machine, s: nat, e: nat, k: nat) {
    forall i :: 0 <= i < |m.sched.queue| && m.sched.queue[i].kind == CompareInterrupt ==>
      RankOf(m, m.sched.queue[i].time, s, e, k)
  }

  lemma DelayAdvances(m: Machine, n: u64)
    ensures CompareDelay(Advanced(m, n)) == (CompareDelay(m) - n) % COUNT_RANGE
  {
    hide DoTick;
    RangeDifference((m.compare * 2) % 0x1_0000_0000, m.count + n);
    RangeSum((m.compare * 2) % 0x1_0000_0000 - m.count, n);
  }

  lemma RangeDifference(x: int, y: int)
    ensures (x - y % COUNT_RANGE) % COUNT_RANGE == (x - y) % COUNT_RANGE
  {}

  lemma RangeSum(x: int, n: int)
    ensures (x % COUNT_RANGE - n) % COUNT_RANGE == (x - n) % COUNT_RANGE
  {}

  lemma RankCarried(m: Machine, m': Machine, n: u64, s: nat, e: nat, k: nat)
    requires Carries(m, m', n, CompareInterrupt) && TimerRank(m, s, e, k)
    ensures TimerRank(m', s, e, k)
  {
    DelayAdvances(m, n);
    hide CompareDelay, Advanced;
    forall i | 0 <= i < |m'.sched.queue| && m'.sched.queue[i].kind == CompareInterrupt
      ensures RankOf(m', m'.sched.queue[i].time, s, e, k)
    {
      var t := m'.sched.queue[i].time;
      assert RankOf(m, t, s, e, k);
      RangeSum(t - m.sched.ticks, n);
    }
  }

  /** Each firing in the window uses up one of the timer's turns. */
  lemma RankFires(m: Machine, m': Machine, n: u64, s: nat, e: nat, k: nat)
    requires m.sched.queue != [] && m.sched.queue[0].kind == CompareInterrupt
    requires m.sched.queue[0].time <= m.sched.ticks + n == m'.sched.ticks <= e && n > 0
    requires TimerRank(m, s, e, k) && k <= 3 && s <= m.sched.ticks && e - s < COUNT_RANGE
    requires CompareDelay(m') == CompareDelay(Advanced(m, n)) && TimerAt(m', m'.sched.ticks + CompareDelay(m'))
    ensures k > 0 && TimerRank(m', s, e, k - 1)
  {
    var t, late := m.sched.queue[0].time, m'.sched.ticks - m.sched.queue[0].time;
    assert RankOf(m, t, s, e, k);
    DelayAdvances(m, n);
    hide CompareDelay, Advanced;
    RangeSum(t - m.sched.ticks, n);
    var back := m'.sched.ticks + CompareDelay(m');
    if k < 3 {
      Wraps(late);
      assert back == if late == 0 then m'.sched.ticks else t + COUNT_RANGE;
    }
    InRange(CompareDelay(m'));
    assert RankOf(m', back, s, e, k - 1);
  }

  lemma Wraps(late: nat)
    requires late < COUNT_RANGE
    ensures (0 - late) % COUNT_RANGE == if late == 0 then 0 else COUNT_RANGE - late
  {}

  lemma InRange(d: nat)
    ensures d < COUNT_RANGE ==> d % COUNT_RANGE == d
  {}

  // ----- Bounded delay -----

  /** A clock step of `n` cycles, and what the video timing does if a half-line ends. */
  datatype Tick = Tick(n: u64, vi: Halfline)

  function Clock(steps: seq<Tick>): (actions: seq<Action>)
    ensures |actions| == |steps|
  {
    seq(|steps|, i requires 0 <= i < |steps| => Cycles(steps[i].n, steps[i].vi))
  }

  function Total(steps: seq<Tick>): nat {
    if steps == [] then 0 else steps[0].n + Total(steps[1..])
  }

  /** Whether a half-line event may still come before the interrupt: `v` is 0 when
      none can. With `long` half-lines one that ended does not end again in the window. */
  predicate VideoRank(m: Machine, e: nat, long: bool, v: nat) {
    v == 1 || (v == 0 && VideoAfter(m, if long then e + 1 else m.sched.ticks + 1))
  }

  /** What the steps of a window must be: time passes, nothing wraps, and a half-line
      that ends is queued behind the interrupt it may cause. */
  predicate WindowOk(steps: seq<Tick>, s: nat, e: nat, long: bool) {
    e - s < COUNT_RANGE && e + COUNT_RANGE < U64 &&
    forall i :: 0 <= i < |steps| ==>
      steps[i].n > 0 && e + steps[i].vi.next < U64 && steps[i].vi.next > (if long then e - s else 1)
  }

  function Measure(m: Machine, long: bool, k: nat, v: nat): nat {
    (if long then 1 else 2) * (Requests(m.sched.queue) + k) + v
  }

  /** A step that does not take the interrupt uses up a request, a turn of the timer or
      a half-line. */
  lemma StepUsesUp(m: Machine, t: Tick, s: nat, e: nat, long: bool, k: nat, v: nat) returns (k': nat, v': nat)
    requires Waiting(m) && TimerRank(m, s, e, k) && k <= 3 && VideoRank(m, e, long, v)
    requires s <= m.sched.ticks && m.sched.ticks + t.n <= e && WindowOk([t], s, e, long) && !Takes(m, t.n)
    ensures
      var m' := Apply(m, Cycles(t.n, t.vi));
      && Waiting(m') && m'.sched.ticks == m.sched.ticks + t.n
      && TimerRank(m', s, e, k') && k' <= 3 && VideoRank(m', e, long, v')
      && Measure(m', long, k', v') < Measure(m, long, k, v)
  {
    assert [t][0] == t;
    HeadIsDue(m, t.n);
    hide Apply, Waiting, TimerRank, KindFrom, Requests, CompareDelay, DoTick, Takes;
    var m' := Apply(m, Cycles(t.n, t.vi));
    var kind := m.sched.queue[0].kind;
    k', v' := k, if long then v else 1;
    if kind == CompareInterrupt {
      TimerStep(m, t.n, t.vi);
      SameTicks(m, t);
      RankFires(m, m', t.n, s, e, k);
      k' := k - 1;
      VideoCarried(m, m', t.n, e, long, v);
    } else if kind == ViHalfline {
      VideoStep(m, t.n, t.vi);
      RankCarried(m, m', t.n, s, e, k);
      v' := 0;
    } else {
      RequestStep(m, t.n, t.vi);
      RankCarried(m, m', t.n, s, e, k);
      VideoCarried(m, m', t.n, e, long, v);
    }
  }

  lemma SameTicks(m: Machine, t: Tick)
    requires Waiting(m) && t.n > 0 && m.sched.ticks + t.n + 1 < U64
    requires m.sched.queue != [] && m.sched.queue[0].kind == CompareInterrupt
    ensures Apply(m, Cycles(t.n, t.vi)).sched.ticks == m.sched.ticks + t.n
    ensures CompareDelay(Apply(m, Cycles(t.n, t.vi))) == CompareDelay(Advanced(m, t.n))
  {
    HeadIsHandled(m, t.n, t.vi);
    hide Apply, InterruptUpdate, RescheduleCompare, CompareDelay;
    var a := Advanced(m, t.n);
    var fired := a.(ip := a.ip + {IP7});
    UpdateIsSched(fired);
    RescheduleIsSched(InterruptUpdate(fired));
    SameDelay(a, RescheduleCompare(InterruptUpdate(fired)));
  }

  lemma VideoCarried(m: Machine, m': Machine, n: u64, e: nat, long: bool, v: nat)
    requires VideoRank(m, e, long, v) && KindFrom(m'.sched.queue, m.sched.queue, ViHalfline)
    ensures VideoRank(m', e, long, if long then v else 1)
  {}

  /** Step `j` takes the interrupt exception. */
  predicate TakenAt(m: Machine, steps: seq<Tick>, j: nat)
    requires j < |steps|
  {
    Takes(Play(m, Clock(steps[..j])), steps[j].n)
  }

  /** Among enough clock steps, one takes the interrupt. */
  lemma {:induction false} TakenAmong(m: Machine, steps: seq<Tick>, s: nat, e: nat, long: bool, k: nat, v: nat)
    requires Waiting(m) && TimerRank(m, s, e, k) && k <= 3 && VideoRank(m, e, long, v)
    requires s <= m.sched.ticks && m.sched.ticks + Total(steps) <= e && WindowOk(steps, s, e, long)
    requires |steps| > Measure(m, long, k, v)
    ensures exists j: nat :: j < |steps| && TakenAt(m, steps, j)
    decreases |steps|
  {
    hide Apply, Takes, TimerRank, VideoRank, Waiting, Measure;
    if Takes(m, steps[0].n) {
      assert Clock(steps[..0]) == [];
      assert TakenAt(m, steps, 0);
    } else {
      var rest := steps[1..];
      var k', v' := StepUsesUp(m, steps[0], s, e, long, k, v);
      var next := Apply(m, Cycles(steps[0].n, steps[0].vi));
      TakenAmong(next, rest, s, e, long, k', v');
      var i: nat :| i < |rest| && TakenAt(next, rest, i);
      assert Clock(steps[..i + 1])[0] == Cycles(steps[0].n, steps[0].vi);
      assert Clock(steps[..i + 1])[1..] == Clock(rest[..i]);
      assert TakenAt(m, steps, i + 1);
    }
  }

  /** A window of clock steps from `m` on that neither reaches the range of Count nor
      wraps. */
  predicate ClockOk(m: Machine, steps: seq<Tick>, long: bool) {
    WindowOk(steps, m.sched.ticks, m.sched.ticks + Total(steps), long)
  }

  /** Whatever operations came before, a deliverable interrupt is taken within twice the
      pending requests and eight clock steps, whatever waits in front of it, the timer
      and the half-line included, and whatever their handlers raise. */
  lemma DeliverableIsTaken(m: Machine, actions: seq<Action>, steps: seq<Tick>)
    requires NothingLost(m) && Orderly(m) && AllOk(actions) && NeverWraps(m, actions)
    requires Deliverable(Play(m, actions)) && ClockOk(Play(m, actions), steps, false)
    requires |steps| == 2 * Requests(Play(m, actions).sched.queue) + 8
    ensures exists j: nat :: j < |steps| && TakenAt(Play(m, actions), steps, j)
  {
    hide Play, TakenAt, Requests, Orderly, Deliverable, Handles;
    NoInterruptIsLost(m, actions);
    RunKeepsOrderly(m, actions);
    var now := Play(m, actions);
    TakenAmong(now, steps, now.sched.ticks, now.sched.ticks + Total(steps), false, 3, 1);
  }

  /** When half-lines are longer than the wait, four clock steps beside one for each
      pending device event are enough. */
  lemma DeliverableIsTakenSoon(m: Machine, actions: seq<Action>, steps: seq<Tick>)
    requires NothingLost(m) && Orderly(m) && AllOk(actions) && NeverWraps(m, actions)
    requires Deliverable(Play(m, actions)) && ClockOk(Play(m, actions), steps, true)
    requires |steps| == Devices(Play(m, actions).sched.queue) + 4
    ensures exists j: nat :: j < |steps| && TakenAt(Play(m, actions), steps, j)
  {
    hide Play, TakenAt, Count, Deliverable;
    NoInterruptIsLost(m, actions);
    RunKeepsOrderly(m, actions);
    var now := Play(m, actions);
    NoneCounted(now.sched.queue, ViHalfline);
    TakenAmong(now, steps, now.sched.ticks, now.sched.ticks + Total(steps), true, 3, Count(now.sched.queue, ViHalfline));
  }

  lemma ResetIsOrderly()
    ensures NothingLost(RESET) && Orderly(RESET)
  {}
}
