/** Whether the ten event nodes suffice: exactly when each operation gets the nodes it
    allocates, and how many device events a run may have pending. */
module InterruptPool {
  import opened EventQueue
  import opened Interrupts

  // ----- The allocator's guard, operation by operation -----

  /** A node is free. */
  predicate HasNode(q: Queue) { |q| < POOL_SIZE }

  /** Requeueing the interrupt event removes it first. */
  predicate UpdateHolds(m: Machine) {
    Pending(m) ==> HasNode(Remove(m.sched.queue, HandleInterrupt))
  }

  predicate RescheduleHolds(m: Machine) { HasNode(Remove(m.sched.queue, CompareInterrupt)) }

  predicate RaiseHolds(m: Machine, line: Line) { UpdateHolds(Changed(m.(intr := m.intr + {line}))) }

  predicate HalflineHolds(m: Machine, vi: Halfline) {
    (vi.raises ==> RaiseHolds(m, VI)) && HasNode((if vi.raises then RaiseLine(m, VI) else m).sched.queue)
  }

  predicate EventHolds(m: Machine, kind: EventType, vi: Halfline) {
    match kind
    case CompareInterrupt =>
      var fired := m.(ip := m.ip + {IP7});
      UpdateHolds(fired) && RescheduleHolds(InterruptUpdate(fired))
    case HandleInterrupt =>
      m.status.ie && !m.status.exl && !m.status.erl ==> UpdateHolds(m.(status := m.status.(exl := true)))
    case SiDmaComplete => RaiseHolds(m, SI)
    case PiDmaComplete => RaiseHolds(m, PI)
    case ViHalfline => HalflineHolds(m, vi)
    case PiBusWriteComplete => true
    case ResetSystem => true
  }

  /** Every allocation the operation makes finds a free node. */
  predicate PoolHolds(m: Machine, a: Action) {
    match a
    case Raise(line) => RaiseHolds(m, line)
    case Lower(line) => UpdateHolds(Changed(m.(intr := m.intr - {line})))
    case WriteMask(c, s) => UpdateHolds(Changed(m.(mask := m.mask - c + s)))
    case WriteStatus(status) => UpdateHolds(m.(status := status))
    case WriteCause(ip0, ip1) => UpdateHolds(m.(ip := WithBit(WithBit(m.ip, IP0, ip0), IP1, ip1)))
    case WriteCompare(v) => RescheduleHolds(m.(ip := m.ip - {IP7}, compare := v))
    case WriteCount(v) => RescheduleHolds(m.(count := v * 2))
    case Exception => UpdateHolds(m.(status := m.status.(exl := true)))
    case Eret =>
      UpdateHolds(m.(status := if m.status.erl then m.status.(erl := false) else m.status.(exl := false)))
    case Device(_, _) => HasNode(m.sched.queue)
    case Cancel(_) => true
    case WriteVsync(_) => HasNode(Remove(m.sched.queue, ViHalfline))
    case Cycles(n, vi) =>
      var (sched, e) := DoTick(m.sched, n);
      e.Some? ==> EventHolds(Advanced(m, n), e.value.kind, vi)
  }

  /** A queue the pool can hold. */
  predicate Fits(m: Machine) { |m.sched.queue| <= POOL_SIZE }

  lemma EnqueueFits(q: Queue, e: Event)
    ensures HasNode(q) <==> |Insert(q, e)| <= POOL_SIZE
  {
    hide Insert;
    InsertCount(q, e, e.kind);
  }

  lemma UpdateFits(m: Machine)
    requires Fits(m)
    ensures UpdateHolds(m) <==> Fits(InterruptUpdate(m))
  {
    hide Insert, Remove;
    RemoveLength(m.sched.queue, HandleInterrupt);
    EnqueueFits(Remove(m.sched.queue, HandleInterrupt), Event((m.sched.ticks + 1) % U64, HandleInterrupt));
  }

  lemma RescheduleFits(m: Machine)
    ensures RescheduleHolds(m) <==> Fits(RescheduleCompare(m))
  {
    hide Insert, Remove;
    EnqueueFits(Remove(m.sched.queue, CompareInterrupt), RescheduledAt(m));
  }

  lemma UpdateAfterPop(m: Machine)
    requires |m.sched.queue| < POOL_SIZE
    ensures UpdateHolds(m) && Fits(InterruptUpdate(m))
  {
    hide Insert, Remove;
    RemoveLength(m.sched.queue, HandleInterrupt);
    UpdateFits(m);
  }

  lemma HalflineFits(m: Machine, vi: Halfline)
    requires |m.sched.queue| < POOL_SIZE
    ensures HalflineHolds(m, vi) <==> Fits(EndHalfline(m, vi))
  {
    hide Insert, InterruptUpdate, UpdateHolds;
    UpdateAfterPop(Changed(m.(intr := m.intr + {VI})));
    var r := if vi.raises then RaiseLine(m, VI) else m;
    EnqueueFits(r.sched.queue, Event((r.sched.ticks + vi.next) % U64, ViHalfline));
  }

  lemma CyclesFit(m: Machine, n: u64, vi: Halfline)
    requires Fits(m)
    ensures PoolHolds(m, Cycles(n, vi)) <==> Fits(Apply(m, Cycles(n, vi)))
  {
    hide InterruptUpdate, RescheduleCompare, UpdateHolds, RescheduleHolds, HalflineHolds, EndHalfline;
    var (sched, e) := DoTick(m.sched, n);
    var m' := Advanced(m, n);
    if e.Some? {
      match e.value.kind
      case CompareInterrupt =>
        var m1 := m'.(ip := m'.ip + {IP7});
        UpdateAfterPop(m1);
        RescheduleFits(InterruptUpdate(m1));
      case HandleInterrupt => UpdateAfterPop(m'.(status := m'.status.(exl := true)));
      case SiDmaComplete => UpdateAfterPop(Changed(m'.(intr := m'.intr + {SI})));
      case PiDmaComplete => UpdateAfterPop(Changed(m'.(intr := m'.intr + {PI})));
      case ViHalfline => HalflineFits(m', vi);
      case PiBusWriteComplete =>
      case ResetSystem =>
    }
  }

  /** An operation gets every node it allocates if and only if the queue it leaves
      fits the pool. */
  lemma ActionGetsNodesIff(m: Machine, a: Action)
    requires Fits(m)
    ensures PoolHolds(m, a) <==> Fits(Apply(m, a))
  {
    hide InterruptUpdate, RescheduleCompare, UpdateHolds, RescheduleHolds, Insert, Remove;
    match a
    case Raise(line) => UpdateFits(Changed(m.(intr := m.intr + {line})));
    case Lower(line) => UpdateFits(Changed(m.(intr := m.intr - {line})));
    case WriteMask(c, s) => UpdateFits(Changed(m.(mask := m.mask - c + s)));
    case WriteStatus(status) => UpdateFits(m.(status := status));
    case WriteCause(ip0, ip1) => UpdateFits(m.(ip := WithBit(WithBit(m.ip, IP0, ip0), IP1, ip1)));
    case WriteCompare(v) => RescheduleFits(m.(ip := m.ip - {IP7}, compare := v));
    case WriteCount(v) => RescheduleFits(m.(count := v * 2));
    case Exception => UpdateFits(m.(status := m.status.(exl := true)));
    case Eret =>
      UpdateFits(m.(status := if m.status.erl then m.status.(erl := false) else m.status.(exl := false)));
    case Device(n, kind) => EnqueueFits(m.sched.queue, Event((m.sched.ticks + n) % U64, kind));
    case Cancel(kind) => RemoveLength(m.sched.queue, kind);
    case WriteVsync(n) =>
      EnqueueFits(Remove(m.sched.queue, ViHalfline), Event((m.sched.ticks + n) % U64, ViHalfline));
    case Cycles(n, vi) => CyclesFit(m, n, vi);
  }

  lemma RemovedLength(q: Queue, kind: EventType)
    ensures |Remove(q, kind)| == |q| - (if Count(q, kind) > 0 then 1 else 0)
  {
    NoneCounted(q, kind);
  }

  /** The guards in numbers: a requeue finds a node exactly when the other events leave
      one free. */
  lemma GuardsByCount(m: Machine)
    ensures UpdateHolds(m) <==> (Pending(m) ==> |m.sched.queue| - (if Handles(m) > 0 then 1 else 0) < POOL_SIZE)
    ensures RescheduleHolds(m) <==>
      |m.sched.queue| - (if Count(m.sched.queue, CompareInterrupt) > 0 then 1 else 0) < POOL_SIZE
  {
    hide Remove, Count;
    RemovedLength(m.sched.queue, HandleInterrupt);
    RemovedLength(m.sched.queue, CompareInterrupt);
  }

  // ----- What a run keeps -----

  /** At most one timer, one interrupt and one half-line event. */
  predicate OwnKindsOnce(q: Queue) {
    Count(q, CompareInterrupt) <= 1 && Count(q, HandleInterrupt) <= 1 && Count(q, ViHalfline) <= 1
  }

  /** Pending events that devices enqueued. */
  function Devices(q: Queue): nat {
    Count(q, SiDmaComplete) + Count(q, PiDmaComplete) + Count(q, PiBusWriteComplete) + Count(q, ViHalfline)
    + Count(q, ResetSystem)
  }

  lemma {:induction false} LengthIsSum(q: Queue)
    ensures |q| == Devices(q) + Count(q, CompareInterrupt) + Count(q, HandleInterrupt)
  {
    if q != [] {
      LengthIsSum(q[1..]);
    }
  }

  lemma ReplaceKeepsOnce(q: Queue, e: Event)
    requires OwnKindsOnce(q)
    ensures OwnKindsOnce(Remove(q, e.kind)) && OwnKindsOnce(Insert(Remove(q, e.kind), e))
  {
    hide Count, Insert, Remove;
    RemoveCount(q, e.kind, CompareInterrupt);
    RemoveCount(q, e.kind, HandleInterrupt);
    RemoveCount(q, e.kind, ViHalfline);
    InsertCount(Remove(q, e.kind), e, CompareInterrupt);
    InsertCount(Remove(q, e.kind), e, HandleInterrupt);
    InsertCount(Remove(q, e.kind), e, ViHalfline);
  }

  lemma UpdateKeepsOnce(m: Machine)
    requires OwnKindsOnce(m.sched.queue)
    ensures OwnKindsOnce(InterruptUpdate(m).sched.queue)
  {
    hide Insert, Remove, OwnKindsOnce;
    ReplaceKeepsOnce(m.sched.queue, Event((m.sched.ticks + 1) % U64, HandleInterrupt));
  }

  lemma RescheduleKeepsOnce(m: Machine)
    requires OwnKindsOnce(m.sched.queue)
    ensures OwnKindsOnce(RescheduleCompare(m).sched.queue)
  {
    hide Insert, Remove, OwnKindsOnce;
    ReplaceKeepsOnce(m.sched.queue, RescheduledAt(m));
  }

  lemma RaiseKeepsOnce(m: Machine, line: Line)
    requires OwnKindsOnce(m.sched.queue)
    ensures OwnKindsOnce(RaiseLine(m, line).sched.queue)
    ensures Count(RaiseLine(m, line).sched.queue, ViHalfline) == Count(m.sched.queue, ViHalfline)
  {
    hide OwnKindsOnce, Insert, Remove, Count;
    UpdateKeepsOnce(Changed(m.(intr := m.intr + {line})));
    RemoveCount(m.sched.queue, HandleInterrupt, ViHalfline);
    InsertCount(Remove(m.sched.queue, HandleInterrupt), Event((m.sched.ticks + 1) % U64, HandleInterrupt), ViHalfline);
  }

  lemma HalflineKeepsOnce(m: Machine, vi: Halfline)
    requires OwnKindsOnce(m.sched.queue) && Count(m.sched.queue, ViHalfline) == 0
    ensures OwnKindsOnce(EndHalfline(m, vi).sched.queue)
  {
    hide Insert, Count, RaiseLine;
    RaiseKeepsOnce(m, VI);
    var r := if vi.raises then RaiseLine(m, VI) else m;
    var e := Event((r.sched.ticks + vi.next) % U64, ViHalfline);
    InsertCount(r.sched.queue, e, CompareInterrupt);
    InsertCount(r.sched.queue, e, HandleInterrupt);
    InsertCount(r.sched.queue, e, ViHalfline);
  }

  lemma CyclesKeepOnce(m: Machine, n: u64, vi: Halfline)
    requires OwnKindsOnce(m.sched.queue)
    ensures OwnKindsOnce(Apply(m, Cycles(n, vi)).sched.queue)
  {
    hide InterruptUpdate, RescheduleCompare, RaiseLine, EndHalfline;
    var (sched, e) := DoTick(m.sched, n);
    var m' := Advanced(m, n);
    assert OwnKindsOnce(sched.queue);
    assert e.Some? && e.value.kind == ViHalfline ==> Count(sched.queue, ViHalfline) == 0;
    hide OwnKindsOnce, Count;
    if e.Some? {
      match e.value.kind
      case CompareInterrupt =>
        var m1 := m'.(ip := m'.ip + {IP7});
        UpdateKeepsOnce(m1);
        RescheduleKeepsOnce(InterruptUpdate(m1));
      case HandleInterrupt => UpdateKeepsOnce(m'.(status := m'.status.(exl := true)));
      case SiDmaComplete => RaiseKeepsOnce(m', SI);
      case PiDmaComplete => RaiseKeepsOnce(m', PI);
      case ViHalfline => HalflineKeepsOnce(m', vi);
      case PiBusWriteComplete =>
      case ResetSystem =>
    }
  }

  lemma StepKeepsOnce(m: Machine, a: Action)
    requires OwnKindsOnce(m.sched.queue) && ActionOk(a)
    ensures OwnKindsOnce(Apply(m, a).sched.queue)
  {
    hide InterruptUpdate, RescheduleCompare, Insert, Remove, Count;
    match a
    case Raise(line) => RaiseKeepsOnce(m, line);
    case Lower(line) => UpdateKeepsOnce(Changed(m.(intr := m.intr - {line})));
    case WriteMask(c, s) => UpdateKeepsOnce(Changed(m.(mask := m.mask - c + s)));
    case WriteStatus(status) => UpdateKeepsOnce(m.(status := status));
    case WriteCause(ip0, ip1) => UpdateKeepsOnce(m.(ip := WithBit(WithBit(m.ip, IP0, ip0), IP1, ip1)));
    case WriteCompare(v) => RescheduleKeepsOnce(m.(ip := m.ip - {IP7}, compare := v));
    case WriteCount(v) => RescheduleKeepsOnce(m.(count := v * 2));
    case Exception => UpdateKeepsOnce(m.(status := m.status.(exl := true)));
    case Eret =>
      UpdateKeepsOnce(m.(status := if m.status.erl then m.status.(erl := false) else m.status.(exl := false)));
    case Device(n, kind) =>
      InsertCount(m.sched.queue, Event((m.sched.ticks + n) % U64, kind), CompareInterrupt);
      InsertCount(m.sched.queue, Event((m.sched.ticks + n) % U64, kind), HandleInterrupt);
      InsertCount(m.sched.queue, Event((m.sched.ticks + n) % U64, kind), ViHalfline);
    case Cancel(kind) =>
      RemoveCount(m.sched.queue, kind, CompareInterrupt);
      RemoveCount(m.sched.queue, kind, HandleInterrupt);
      RemoveCount(m.sched.queue, kind, ViHalfline);
    case WriteVsync(n) => ReplaceKeepsOnce(m.sched.queue, Event((m.sched.ticks + n) % U64, ViHalfline));
    case Cycles(n, vi) => CyclesKeepOnce(m, n, vi);
  }

  predicate AllOk(actions: seq<Action>) { forall i :: 0 <= i < |actions| ==> ActionOk(actions[i]) }

  /** On every run there is at most one timer, one interrupt and one half-line event,
      so all but two of the queued events are the devices'. */
  lemma {:induction false} OwnEventsNeedTwo(m: Machine, actions: seq<Action>)
    requires OwnKindsOnce(m.sched.queue) && AllOk(actions)
    ensures OwnKindsOnce(Play(m, actions).sched.queue)
    ensures |Play(m, actions).sched.queue| <= Devices(Play(m, actions).sched.queue) + 2
    decreases |actions|
  {
    hide Apply, Count, Devices;
    if actions == [] {
      LengthIsSum(m.sched.queue);
    } else {
      StepKeepsOnce(m, actions[0]);
      OwnEventsNeedTwo(Apply(m, actions[0]), actions[1..]);
    }
  }

  /** No allocation of the run takes the fatal branch. */
  predicate RunHolds(m: Machine, actions: seq<Action>)
    decreases |actions|
  {
    actions != [] ==> PoolHolds(m, actions[0]) && RunHolds(Apply(m, actions[0]), actions[1..])
  }

  predicate RunFits(m: Machine, actions: seq<Action>)
    decreases |actions|
  {
    Fits(m) && (actions != [] ==> RunFits(Apply(m, actions[0]), actions[1..]))
  }

  /** The pool suffices for a run if and only if the queue never exceeds ten events. */
  lemma {:induction false} RunHoldsIff(m: Machine, actions: seq<Action>)
    requires Fits(m)
    ensures RunHolds(m, actions) <==> RunFits(m, actions)
    decreases |actions|
  {
    hide Apply, PoolHolds, Fits;
    if actions != [] {
      ActionGetsNodesIff(m, actions[0]);
      if Fits(Apply(m, actions[0])) {
        RunHoldsIff(Apply(m, actions[0]), actions[1..]);
      }
    }
  }

  /** At every point of the run at most eight device events are pending. */
  predicate EightDevices(m: Machine, actions: seq<Action>)
    decreases |actions|
  {
    Devices(m.sched.queue) <= 8 && (actions != [] ==> EightDevices(Apply(m, actions[0]), actions[1..]))
  }

  /** With at most eight device events pending, two of them of one kind or not, the
      pool never runs out. */
  lemma {:induction false} EightDevicesSuffice(m: Machine, actions: seq<Action>)
    requires OwnKindsOnce(m.sched.queue) && AllOk(actions) && EightDevices(m, actions)
    ensures RunFits(m, actions) && RunHolds(m, actions)
    decreases |actions|
  {
    LengthIsSum(m.sched.queue);
    assert Fits(m) by {
      hide Count, Devices;
    }
    hide Apply, OwnKindsOnce, Devices, PoolHolds;
    if actions != [] {
      StepKeepsOnce(m, actions[0]);
      EightDevicesSuffice(Apply(m, actions[0]), actions[1..]);
      ActionGetsNodesIff(m, actions[0]);
    }
  }

  // ----- The pool can run out -----

  function Repeated(a: Action, k: nat): (actions: seq<Action>)
    ensures |actions| == k && forall i :: 0 <= i < k ==> actions[i] == a
  {
    seq(k, _ => a)
  }

  /** Devices may enqueue again while their event is pending, and each one takes a
      node. */
  lemma {:induction false} DeviceEventsPileUp(m: Machine, n: u64, kind: EventType, k: nat)
    requires kind != HandleInterrupt
    ensures
      var r := Play(m, Repeated(Device(n, kind), k));
      && |r.sched.queue| == |m.sched.queue| + k && Handles(r) == Handles(m)
      && r == m.(sched := r.sched)
    decreases k
  {
    hide Insert, Count;
    if k > 0 {
      var actions := Repeated(Device(n, kind), k);
      assert actions[1..] == Repeated(Device(n, kind), k - 1);
      InsertCount(m.sched.queue, Event((m.sched.ticks + n) % U64, kind), HandleInterrupt);
      DeviceEventsPileUp(Apply(m, actions[0]), n, kind, k - 1);
    }
  }

  /** The machine after reset: the first half-line is scheduled. */
  const RESET: Machine :=
    Machine(Status(false, false, false, {}), {}, {}, {}, 0, 0, Sched(0, [Event(1000, ViHalfline)]))

  /** Nine PI transfers started before the first completes exhaust the pool beside the
      half-line event: the next one takes the fatal branch, and so does the first
      interrupt to be delivered. */
  lemma TransfersExhaustThePool(n: u64)
    ensures
      var start := WriteStatus(Status(true, false, false, {IP2}));
      var m := Play(Apply(RESET, start), Repeated(Device(n, PiDmaComplete), 9));
      && ActionOk(start) && AllOk(Repeated(Device(n, PiDmaComplete), 9))
      && !PoolHolds(m, Device(n, PiDmaComplete))
      && !PoolHolds(Apply(m, WriteMask({}, {PI})), Raise(PI))
  {
    var start := WriteStatus(Status(true, false, false, {IP2}));
    assert Apply(RESET, start) == RESET.(status := start.status);
    assert Handles(RESET) == 0;
    DeviceEventsPileUp(Apply(RESET, start), n, PiDmaComplete, 9);
    var m := Play(Apply(RESET, start), Repeated(Device(n, PiDmaComplete), 9));
    hide Play, Insert;
    NothingToRemove(m.sched.queue, HandleInterrupt);
    var masked := Apply(m, WriteMask({}, {PI}));
    assert masked == m.(mask := {PI});
    hide Apply, Remove;
    assert PI in {PI} * masked.mask;
    assert IP2 in Changed(masked.(intr := {PI})).ip * m.status.im;
    assert Raise(PI).line == PI && masked.intr + {PI} == {PI};
  }

  lemma NothingToRemove(q: Queue, kind: EventType)
    requires Count(q, kind) == 0
    ensures Remove(q, kind) == q
  {
    NoneCounted(q, kind);
  }
}
