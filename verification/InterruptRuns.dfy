/** Interrupts over whole runs: when a deliverable one is taken, which exceptions have
    a cause, and the run from reset that takes one without. */
module InterruptRuns {
  import opened EventQueue
  import opened Interrupts
  import opened InterruptPool

  // ----- Every interrupt exception has a cause, but for one write -----

  /** The Compare write that clears the only cause of a queued interrupt event. */
  predicate DropsCause(m: Machine, a: Action) {
    a.WriteCompare? && Handles(m) > 0 && (m.ip - {IP7}) * m.status.im == {}
  }

  predicate NeverDropsCause(m: Machine, actions: seq<Action>)
    decreases |actions|
  {
    actions != [] ==> !DropsCause(m, actions[0]) && NeverDropsCause(Apply(m, actions[0]), actions[1..])
  }

  /** Each interrupt exception of the run is taken with an enabled cause pending. */
  predicate AlwaysCaused(m: Machine, actions: seq<Action>)
    decreases |actions|
  {
    actions != [] ==>
      && (actions[0].Cycles? && Takes(m, actions[0].n) ==> Pending(m))
      && AlwaysCaused(Apply(m, actions[0]), actions[1..])
  }

  /** On every run without such a write, each taken exception has a cause. */
  lemma {:induction false} TakenExceptionsHaveCauses(m: Machine, actions: seq<Action>)
    requires NothingLost(m) && Justified(m) && AllOk(actions) && NeverDropsCause(m, actions)
    ensures AlwaysCaused(m, actions)
    decreases |actions|
  {
    hide Apply, NothingLost, Justified, Takes, Pending;
    if actions != [] {
      if actions[0].Cycles? && Takes(m, actions[0].n) {
        TakenHasCause(m, actions[0].n);
      }
      NothingLostStep(m, actions[0]);
      OnlyCompareUnjustifies(m, actions[0]);
      TakenExceptionsHaveCauses(Apply(m, actions[0]), actions[1..]);
    }
  }

  // ----- The spurious exception -----

  lemma RemoveInserted(q: Queue, e: Event)
    requires Count(q, e.kind) == 0
    ensures Remove(Insert(q, e), e.kind) == q
  {
    NoneCounted(q, e.kind);
    FoundAt(q[..Position(q, e.time)], e, q[Position(q, e.time)..]);
  }

  lemma FoundAt(a: Queue, e: Event, b: Queue)
    requires forall i :: 0 <= i < |a| ==> a[i].kind != e.kind
    ensures Remove(a + [e] + b, e.kind) == a + b
  {
    var r, k := a + [e] + b, |a|;
    assert forall i :: 0 <= i < k ==> r[i] == a[i];
    assert r[k] == e;
    assert FindKind(r, e.kind, 0) == k;
    assert r[..k] == a && r[k + 1..] == b;
  }

  /** Later than `time`, all of them. */
  predicate AllAfter(q: Queue, time: nat) { forall i :: 0 <= i < |q| ==> q[i].time > time }

  lemma InsertFirst(q: Queue, e: Event)
    requires AllAfter(q, e.time)
    ensures Insert(q, e) == [e] + q
  {}

  /** A later event goes behind the head. */
  lemma InsertBehind(q: Queue, e: Event, h: Event)
    requires e.time > h.time
    ensures Insert([h] + q, e) != [] && Insert([h] + q, e)[0] == h
  {}

  /** The timer event is at the head and fires within `d` cycles, nothing else is due
      until after the interrupt it causes, and interrupts are enabled through IP7. */
  predicate TimerAboutToFire(m: Machine, d: u64) {
    && m.sched.ticks + d + 1 < U64
    && m.sched.queue != [] && m.sched.queue[0].kind == CompareInterrupt
    && m.sched.queue[0].time <= m.sched.ticks + d
    && AllAfter(m.sched.queue[1..], m.sched.ticks + d + 1)
    && OwnKindsOnce(m.sched.queue) && Handles(m) == 0
    && m.status.ie && !m.status.exl && !m.status.erl && m.ip * m.status.im == {} && IP7 in m.status.im
  }

  /** The machine between the timer event leaving the queue and its handling. */
  function Fired(m: Machine, d: u64): Machine
    requires m.sched.queue != [] && m.sched.ticks + d < U64
  {
    m.(count := (m.count + d) % COUNT_RANGE, sched := Sched(m.sched.ticks + d, m.sched.queue[1..]), ip := m.ip + {IP7})
  }

  lemma FiredApplies(m: Machine, d: u64, vi: Halfline)
    requires TimerAboutToFire(m, d)
    ensures Apply(m, Cycles(d, vi)) == RescheduleCompare(InterruptUpdate(Fired(m, d)))
    ensures Pending(Fired(m, d))
    ensures Count(m.sched.queue[1..], CompareInterrupt) == 0 && Count(m.sched.queue[1..], HandleInterrupt) == 0
  {
    hide InterruptUpdate, RescheduleCompare;
    assert DoTick(m.sched, d) == (Sched(m.sched.ticks + d, m.sched.queue[1..]), Some(m.sched.queue[0]));
    assert IP7 in Fired(m, d).ip * m.status.im;
  }

  /** What requeueing makes of a queue with no interrupt event and nothing due by then. */
  lemma UpdateInFront(m: Machine)
    requires Pending(m) && Handles(m) == 0 && m.sched.ticks + 1 < U64 && AllAfter(m.sched.queue, m.sched.ticks + 1)
    ensures InterruptUpdate(m).sched.queue == [Event(m.sched.ticks + 1, HandleInterrupt)] + m.sched.queue
  {
    NothingToRemove(m.sched.queue, HandleInterrupt);
    InsertFirst(m.sched.queue, Event(m.sched.ticks + 1, HandleInterrupt));
    hide Insert, Remove, Count, Pending;
  }

  lemma CountAfter(h: Event, q: Queue, kind: EventType)
    ensures Count([h] + q, kind) == (if h.kind == kind then 1 else 0) + Count(q, kind)
  {
    assert ([h] + q)[1..] == q;
  }

  /** After the timer fired, its interrupt is the only one, due in one tick; the queue
      without the new timer event holds it first. */
  lemma TimerFires(m: Machine, d: u64, vi: Halfline)
    requires TimerAboutToFire(m, d)
    ensures
      var f := Apply(m, Cycles(d, vi));
      var h := Event(m.sched.ticks + d + 1, HandleInterrupt);
      && f.sched.ticks == m.sched.ticks + d && f.status == m.status && f.ip == m.ip + {IP7}
      && f.count == (m.count + d) % COUNT_RANGE
      && Pending(f) && Handles(f) == 1
      && Remove(f.sched.queue, CompareInterrupt) == [h] + m.sched.queue[1..]
  {
    hide Apply, Insert, Remove, Count, InterruptUpdate, RescheduleCompare, AllAfter, Pending;
    FiredApplies(m, d, vi);
    FireEffects(Fired(m, d));
  }

  lemma FireEffects(fired: Machine)
    requires Pending(fired) && Handles(fired) == 0 && Count(fired.sched.queue, CompareInterrupt) == 0
    requires fired.sched.ticks + 1 < U64 && AllAfter(fired.sched.queue, fired.sched.ticks + 1)
    ensures
      var f := RescheduleCompare(InterruptUpdate(fired));
      var h := Event(fired.sched.ticks + 1, HandleInterrupt);
      && f.sched.ticks == fired.sched.ticks && f.status == fired.status && f.ip == fired.ip && f.count == fired.count
      && Pending(f) && Handles(f) == 1
      && Remove(f.sched.queue, CompareInterrupt) == [h] + fired.sched.queue
  {
    hide Insert, Remove, Count, InterruptUpdate, CompareDelay, AllAfter, Pending;
    UpdateInFront(fired);
    UpdateKeepsMasks(fired);
    UpdateKeepsCount(fired);
    var updated := InterruptUpdate(fired);
    var rest, h := fired.sched.queue, Event(fired.sched.ticks + 1, HandleInterrupt);
    CountAfter(h, rest, CompareInterrupt);
    CountAfter(h, rest, HandleInterrupt);
    NothingToRemove([h] + rest, CompareInterrupt);
    RemoveInserted([h] + rest, RescheduledAt(updated));
    RescheduleKeepsHandles(updated);
    SamePending(fired, RescheduleCompare(updated));
  }

  lemma SamePending(m: Machine, r: Machine)
    requires r.ip == m.ip && r.status == m.status
    ensures Pending(r) == Pending(m)
  {}

  lemma UpdateKeepsCount(m: Machine)
    ensures InterruptUpdate(m).count == m.count
  {}

  /** Writing Compare between the timer firing and its interrupt being delivered: the
      interrupt exception is taken with nothing pending. Any machine whose timer is
      about to fire, any next Compare not due at once. */
  lemma CompareWriteIsSpurious(m: Machine, d: u64, vi: Halfline, v: nat)
    requires TimerAboutToFire(m, d)
    requires
      var f := Apply(m, Cycles(d, vi));
      f.sched.ticks + CompareDelay(f.(compare := v)) < U64 && CompareDelay(f.(compare := v)) > 1
    ensures
      var f := Apply(m, Cycles(d, vi));
      var w := Apply(f, WriteCompare(v));
      && Deliverable(f)
      && DropsCause(f, WriteCompare(v))
      && Takes(w, 1) && !Pending(w)
  {
    hide Apply, Insert, Remove, Count, AllAfter, Pending, Takes, Deliverable, DropsCause, CompareDelay, OwnKindsOnce;
    TimerFires(m, d, vi);
    OnlyTimer(m.ip, m.status.im);
    SpuriousAfter(Apply(m, Cycles(d, vi)), v, m.sched.queue[1..]);
  }

  lemma OnlyTimer(ip: set<nat>, im: set<nat>)
    requires ip * im == {}
    ensures (ip + {IP7} - {IP7}) * im == {}
  {}

  lemma SpuriousAfter(f: Machine, v: nat, rest: Queue)
    requires f.sched.ticks + 1 < U64 && f.status.ie && !f.status.exl && !f.status.erl && Pending(f) && Handles(f) == 1
    requires (f.ip - {IP7}) * f.status.im == {}
    requires Remove(f.sched.queue, CompareInterrupt) == [Event(f.sched.ticks + 1, HandleInterrupt)] + rest
    requires f.sched.ticks + CompareDelay(f.(compare := v)) < U64 && CompareDelay(f.(compare := v)) > 1
    ensures
      var w := Apply(f, WriteCompare(v));
      Deliverable(f) && DropsCause(f, WriteCompare(v)) && Takes(w, 1) && !Pending(w)
  {
    hide Apply, Insert, Remove, Count, CompareDelay;
    var h := Event(f.sched.ticks + 1, HandleInterrupt);
    var cleared := f.(ip := f.ip - {IP7}, compare := v);
    SameDelay(cleared, f.(compare := v));
    InsertBehind(rest, RescheduledAt(cleared), h);
    CompareWritten(f, v);
    var w := Apply(f, WriteCompare(v));
    assert w.sched.queue == Insert([h] + rest, RescheduledAt(cleared));
    HeadIsTaken(w, h);
  }

  lemma CompareWritten(f: Machine, v: nat)
    ensures
      var cleared := f.(ip := f.ip - {IP7}, compare := v);
      Apply(f, WriteCompare(v)) ==
        cleared.(sched := Sched(f.sched.ticks, Insert(Remove(f.sched.queue, CompareInterrupt), RescheduledAt(cleared))))
  {
    hide Insert, Remove, CompareDelay;
  }

  lemma HeadIsTaken(w: Machine, h: Event)
    requires w.status.ie && !w.status.exl && !w.status.erl && w.sched.ticks + 1 < U64
    requires w.sched.queue != [] && w.sched.queue[0] == h == Event(w.sched.ticks + 1, HandleInterrupt)
    ensures Takes(w, 1)
  {}

  /** From reset: enable the timer interrupt, set Compare to 5, let the timer fire, set
      Compare to 100, let one more tick pass. */
  lemma SpuriousFromReset(vi: Halfline)
    ensures
      var run := [WriteStatus(Status(true, false, false, {IP7})), WriteCompare(5), Cycles(10, vi), WriteCompare(100)];
      AllOk(run) && Takes(Play(RESET, run), 1) && !Pending(Play(RESET, run))
  {
    hide Apply, TimerAboutToFire, Play, Takes, Pending, CompareDelay, RESET;
    var start := WriteStatus(Status(true, false, false, {IP7}));
    var m1 := Apply(RESET, start);
    ResetTimer(m1);
    var m2 := Apply(m1, WriteCompare(5));
    TimerFires(m2, 10, vi);
    NextDelay(Apply(m2, Cycles(10, vi)));
    CompareWriteIsSpurious(m2, 10, vi, 100);
    FourSteps(RESET, start, WriteCompare(5), Cycles(10, vi), WriteCompare(100));
  }

  lemma ResetQueue()
    ensures
      var q := RESET.sched.queue;
      && Remove(q, CompareInterrupt) == q && Remove(q, HandleInterrupt) == q
      && Insert(q, Event(10, CompareInterrupt)) == [Event(10, CompareInterrupt)] + q
      && Count(q, CompareInterrupt) == 0 && Count(q, HandleInterrupt) == 0 && Count(q, ViHalfline) == 1
  {}

  lemma NextDelay(m: Machine)
    requires m.count == 10
    ensures CompareDelay(m.(compare := 100)) == 190
  {}

  lemma ResetTimer(m: Machine)
    requires m == Apply(RESET, WriteStatus(Status(true, false, false, {IP7})))
    ensures TimerAboutToFire(Apply(m, WriteCompare(5)), 10)
    ensures Apply(m, WriteCompare(5)).count == 0 && Apply(m, WriteCompare(5)).sched.ticks == 0
  {
    var q, e := RESET.sched.queue, Event(10, CompareInterrupt);
    ResetQueue();
    CompareAfterReset(m);
    CountAfter(e, q, CompareInterrupt);
    CountAfter(e, q, HandleInterrupt);
    CountAfter(e, q, ViHalfline);
    hide Apply, Insert, Remove, Count;
    var r := Apply(m, WriteCompare(5));
    assert r.sched.queue[1..] == q;
  }

  lemma CompareAfterReset(m: Machine)
    requires m == Apply(RESET, WriteStatus(Status(true, false, false, {IP7})))
    ensures
      var r := Apply(m, WriteCompare(5));
      && r.sched == Sched(0, [Event(10, CompareInterrupt)] + RESET.sched.queue)
      && r.status == Status(true, false, false, {IP7}) && r.ip == {} && r.count == 0
  {
    ResetQueue();
    hide Insert, Remove;
    assert m == RESET.(status := Status(true, false, false, {IP7}));
  }

  lemma FourSteps(m: Machine, a: Action, b: Action, c: Action, d: Action)
    ensures Play(m, [a, b, c, d]) == Apply(Apply(Apply(Apply(m, a), b), c), d)
  {
    hide Apply;
    var run := [a, b, c, d];
    assert run[1..] == [b, c, d] && run[1..][1..] == [c, d] && run[1..][1..][1..] == [d] && run[1..][1..][1..][1..] == [];
    var x := Apply(Apply(Apply(m, a), b), c);
    assert Play(x, [d]) == Apply(x, d);
    assert Play(Apply(Apply(m, a), b), [c, d]) == Play(x, [d]);
    assert Play(Apply(m, a), [b, c, d]) == Play(Apply(Apply(m, a), b), [c, d]);
  }
}
