/** The interrupt registers and the scheduler as the emulator updates them; each
    method performs one action of the Interrupts module. */
module InterruptUnit {
  import opened EventQueue
  import opened Interrupts
  import opened InterruptPool
  import opened SchedulerList

  const LINES: seq<Line> := [SP, SI, AI, VI, PI, DP]

  class N64System {
    var status: Status
    var ip: set<nat>
    var intr: set<Line>
    var mask: set<Line>
    var count: nat
    var compare: nat
    const scheduler: Scheduler

    ghost predicate Valid()
      reads scheduler.Repr(), scheduler.nodes
    {
      scheduler.Valid()
    }

    ghost function State(): Machine
      reads this, scheduler, scheduler.nodes
    {
      Machine(status, ip, intr, mask, count, compare, scheduler.State())
    }

    constructor ()
      ensures Valid() && fresh(scheduler.Repr())
      ensures State() == Machine(Status(false, false, false, {}), {}, {}, {}, 0, 0, Sched(0, []))
    {
      status := Status(false, false, false, {});
      ip, intr, mask, count, compare := {}, {}, {}, 0, 0;
      scheduler := new Scheduler();
    }

    method InterruptUpdate()
      requires Valid() && UpdateHolds(State())
      modifies scheduler.Repr()
      ensures Valid() && State() == Interrupts.InterruptUpdate(old(State()))
    {
      hide Insert, Remove, Scheduler.Valid, Scheduler.Queue;
      RemoveLength(scheduler.Queue(), HandleInterrupt);
      var interrupts := ip * status.im;
      var _ := scheduler.RemoveEvent(HandleInterrupt);
      if interrupts != {} {
        InsertCount(scheduler.Queue(), Event((scheduler.ticks + 1) % U64, HandleInterrupt), HandleInterrupt);
        scheduler.EnqueueRelative(1, HandleInterrupt);
      }
    }

    method OnInterruptChange()
      requires Valid() && UpdateHolds(Changed(State()))
      modifies this`ip, scheduler.Repr()
      ensures Valid() && State() == InterruptChange(old(State()))
    {
      hide Interrupts.InterruptUpdate, UpdateHolds, WithBit, Scheduler.Valid, Scheduler.Queue;
      var interrupt := intr * mask != {};
      ip := WithBit(ip, IP2, interrupt);
      InterruptUpdate();
    }

    method InterruptRaise(line: Line)
      requires Valid() && PoolHolds(State(), Raise(line))
      modifies this, scheduler.Repr()
      ensures Valid() && State() == Apply(old(State()), Raise(line))
    {
      hide InterruptChange, UpdateHolds, Changed, Scheduler.Valid, Scheduler.Queue;
      intr := intr + {line};
      OnInterruptChange();
    }

    method InterruptLower(line: Line)
      requires Valid() && PoolHolds(State(), Lower(line))
      modifies this, scheduler.Repr()
      ensures Valid() && State() == Apply(old(State()), Lower(line))
    {
      hide InterruptChange, UpdateHolds, Changed, Scheduler.Valid, Scheduler.Queue;
      intr := intr - {line};
      OnInterruptChange();
    }

    /** The MI mask register: for each line a clear bit, then a set bit. */
    method WriteMiMask(clear: set<Line>, set_: set<Line>)
      requires Valid() && PoolHolds(State(), WriteMask(clear, set_))
      modifies this, scheduler.Repr()
      ensures Valid() && State() == Apply(old(State()), WriteMask(clear, set_))
    {
      hide InterruptChange, UpdateHolds, Changed, Scheduler.Valid, Scheduler.Queue;
      mask := MergedMask(mask, clear, set_);
      OnInterruptChange();
    }

    static method MergedMask(before: set<Line>, clear: set<Line>, set_: set<Line>) returns (mask: set<Line>)
      ensures mask == before - clear + set_
    {
      mask := before;
      for bit := 0 to |LINES|
        invariant forall i :: bit <= i < |LINES| ==> (LINES[i] in mask <==> LINES[i] in before)
        invariant forall i :: 0 <= i < bit ==> (LINES[i] in mask <==> LINES[i] in before - clear + set_)
      {
        if LINES[bit] in clear {
          mask := mask - {LINES[bit]};
        }
        if LINES[bit] in set_ {
          mask := mask + {LINES[bit]};
        }
      }
      AllLines(mask, before - clear + set_);
    }

    static lemma AllLines(a: set<Line>, b: set<Line>)
      requires forall i :: 0 <= i < |LINES| ==> (LINES[i] in a <==> LINES[i] in b)
      ensures a == b
    {
      forall l: Line ensures l in a <==> l in b {
        match l
        case SP => assert LINES[0] == l;
        case SI => assert LINES[1] == l;
        case AI => assert LINES[2] == l;
        case VI => assert LINES[3] == l;
        case PI => assert LINES[4] == l;
        case DP => assert LINES[5] == l;
      }
    }

    method SetStatus(value: Status)
      requires Valid() && PoolHolds(State(), WriteStatus(value))
      modifies this, scheduler.Repr()
      ensures Valid() && State() == Apply(old(State()), WriteStatus(value))
    {
      hide Interrupts.InterruptUpdate, UpdateHolds, Scheduler.Valid, Scheduler.Queue;
      status := value;
      InterruptUpdate();
    }

    method SetCause(ip0: bool, ip1: bool)
      requires Valid() && PoolHolds(State(), WriteCause(ip0, ip1))
      modifies this, scheduler.Repr()
      ensures Valid() && State() == Apply(old(State()), WriteCause(ip0, ip1))
    {
      hide Interrupts.InterruptUpdate, Scheduler.Valid, WithBit;
      ip := WithBit(ip, IP0, ip0);
      ip := WithBit(ip, IP1, ip1);
      InterruptUpdate();
    }

    method RescheduleCompareInterrupt()
      requires Valid() && RescheduleHolds(State())
      modifies scheduler.Repr()
      ensures Valid() && State() == RescheduleCompare(old(State()))
    {
      hide Insert, Remove, Scheduler.Valid, Scheduler.Queue;
      RemoveLength(scheduler.Queue(), CompareInterrupt);
      var compareShifted := (compare * 2) % 0x1_0000_0000;
      var inCycles := (compareShifted - count) % COUNT_RANGE;
      var _ := scheduler.RemoveEvent(CompareInterrupt);
      scheduler.EnqueueRelative(inCycles, CompareInterrupt);
    }

    method SetCompare(value: nat)
      requires Valid() && PoolHolds(State(), WriteCompare(value))
      modifies this, scheduler.Repr()
      ensures Valid() && State() == Apply(old(State()), WriteCompare(value))
    {
      hide RescheduleCompare, Scheduler.Valid;
      ip := ip - {IP7};
      compare := value;
      RescheduleCompareInterrupt();
    }

    method SetCount(value: nat)
      requires Valid() && PoolHolds(State(), WriteCount(value))
      modifies this, scheduler.Repr()
      ensures Valid() && State() == Apply(old(State()), WriteCount(value))
    {
      hide RescheduleCompare, Scheduler.Valid;
      count := value * 2;
      RescheduleCompareInterrupt();
    }

    method HandleException()
      requires Valid() && PoolHolds(State(), Exception)
      modifies this, scheduler.Repr()
      ensures Valid() && State() == Apply(old(State()), Exception)
    {
      hide Interrupts.InterruptUpdate, Scheduler.Valid;
      if !status.exl {
        status := status.(exl := true);
      }
      InterruptUpdate();
    }

    method ReturnFromException()
      requires Valid() && PoolHolds(State(), Eret)
      modifies this, scheduler.Repr()
      ensures Valid() && State() == Apply(old(State()), Eret)
    {
      hide Interrupts.InterruptUpdate, UpdateHolds, Scheduler.Valid, Scheduler.Queue;
      if status.erl {
        status := status.(erl := false);
      } else {
        status := status.(exl := false);
      }
      InterruptUpdate();
    }

    method HandleSchedulerEvent(kind: EventType, vi: Halfline)
      requires Valid() && EventHolds(State(), kind, vi)
      modifies this, scheduler.Repr()
      ensures Valid() && State() == HandleEvent(old(State()), kind, vi)
    {
      hide Interrupts.InterruptUpdate, RescheduleCompare, Scheduler.Valid, Scheduler.Queue;
      match kind
      case CompareInterrupt =>
        ip := ip + {IP7};
        InterruptUpdate();
        RescheduleCompareInterrupt();
      case HandleInterrupt =>
        if status.ie && !status.exl && !status.erl {
          HandleException();
        }
      case SiDmaComplete => InterruptRaise(SI);
      case PiDmaComplete => InterruptRaise(PI);
      case ViHalfline =>
        if vi.raises {
          InterruptRaise(VI);
        }
        scheduler.EnqueueRelative(vi.next, ViHalfline);
      case PiBusWriteComplete =>
      case ResetSystem =>
    }

    /** Runs the clock `n` cycles and handles the event that falls due, if any. */
    method SystemStep(n: u64, vi: Halfline)
      requires Valid() && PoolHolds(State(), Cycles(n, vi))
      modifies this, scheduler.Repr()
      ensures Valid() && State() == Apply(old(State()), Cycles(n, vi))
    {
      hide HandleEvent, Scheduler.Valid, Insert, Remove;
      count := (count + n) % COUNT_RANGE;
      var e := scheduler.Tick(n);
      if e.Some? {
        HandleSchedulerEvent(e.value.kind, vi);
      }
    }
  }
}
