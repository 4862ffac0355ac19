/** The event queue as a value: what the linked list of pending events holds,
    in list order, and what each scheduler call does to it. */
module EventQueue {

  const U64: nat := 0x1_0000_0000_0000_0000
  const POOL_SIZE: nat := 10

  type u64 = n: nat | n < U64

  datatype EventType =
    | SiDmaComplete
    | PiDmaComplete
    | PiBusWriteComplete
    | ViHalfline
    | ResetSystem
    | CompareInterrupt
    | HandleInterrupt

  datatype Event = Event(time: u64, kind: EventType)

  type Queue = seq<Event>

  datatype Option<+T> = None | Some(value: T)

  predicate Sorted(q: Queue) {
    forall i, j :: 0 <= i < j < |q| ==> q[i].time <= q[j].time
  }

  /** The first position from `i` on whose event is not before `time`. */
  function PositionFrom(q: Queue, time: u64, i: nat): (k: nat)
    requires i <= |q|
    ensures i <= k <= |q|
    ensures forall m :: i <= m < k ==> q[m].time < time
    ensures k < |q| ==> time <= q[k].time
    decreases |q| - i
  {
    if i == |q| || time <= q[i].time then i else PositionFrom(q, time, i + 1)
  }

  /** Where a new event goes: before the head only if strictly earlier, otherwise
      before the first later node that is not earlier. */
  function Position(q: Queue, time: u64): (k: nat)
    ensures k <= |q|
  {
    if q == [] || time < q[0].time then 0 else PositionFrom(q, time, 1)
  }

  function Insert(q: Queue, e: Event): Queue {
    var k := Position(q, e.time);
    q[..k] + [e] + q[k..]
  }

  function FindKind(q: Queue, kind: EventType, i: nat): (k: nat)
    requires i <= |q|
    ensures i <= k <= |q|
    ensures k < |q| ==> q[k].kind == kind
    ensures forall m :: i <= m < k ==> q[m].kind != kind
    decreases |q| - i
  {
    if i == |q| || q[i].kind == kind then i else FindKind(q, kind, i + 1)
  }

  /** The queue without its first event of a kind. */
  function Remove(q: Queue, kind: EventType): Queue {
    var k := FindKind(q, kind, 0);
    if k == |q| then q else q[..k] + q[k + 1..]
  }

  function Removed(q: Queue, kind: EventType): Option<Event> {
    var k := FindKind(q, kind, 0);
    if k == |q| then None else Some(q[k])
  }

  function Count(q: Queue, kind: EventType): nat {
    if q == [] then 0 else (if q[0].kind == kind then 1 else 0) + Count(q[1..], kind)
  }

  // ----- Queue facts -----

  lemma InsertSorted(q: Queue, e: Event)
    requires Sorted(q)
    ensures Sorted(Insert(q, e))
  {}

  /** How many events are strictly earlier. */
  function Earlier(q: Queue, time: u64): nat {
    if q == [] then 0 else (if q[0].time < time then 1 else 0) + Earlier(q[1..], time)
  }

  lemma {:induction false} EarlierIs(q: Queue, time: u64, k: nat)
    requires k <= |q|
    requires forall i :: 0 <= i < k ==> q[i].time < time
    requires forall i :: k <= i < |q| ==> time <= q[i].time
    ensures Earlier(q, time) == k
    decreases |q|
  {
    if q != [] {
      var rest := q[1..];
      assert forall i :: 0 <= i < |rest| ==> rest[i] == q[i + 1];
      EarlierIs(rest, time, if k == 0 then 0 else k - 1);
    }
  }

  lemma PlaceIs(q: Queue, time: u64)
    requires Sorted(q)
    ensures Position(q, time) == if q != [] && q[0].time == time then 1 else Earlier(q, time)
  {
    hide Earlier;
    if q == [] || q[0].time != time {
      BeforePosition(q, time);
      EarlierIs(q, time, Position(q, time));
    } else {
      assert PositionFrom(q, time, 1) == 1;
    }
  }

  lemma BeforePosition(q: Queue, time: u64)
    requires Sorted(q) && (q == [] || q[0].time != time)
    ensures forall i :: 0 <= i < Position(q, time) ==> q[i].time < time
    ensures forall i :: Position(q, time) <= i < |q| ==> time <= q[i].time
  {}

  /** An event goes behind all strictly earlier ones and in front of all others, except
      that it goes behind a head due at the same time. */
  lemma InsertPlace(q: Queue, e: Event)
    requires Sorted(q)
    ensures
      var k := if q != [] && q[0].time == e.time then 1 else Earlier(q, e.time);
      k <= |q| && Insert(q, e) == q[..k] + [e] + q[k..]
  {
    hide Earlier, Position, Sorted;
    PlaceIs(q, e.time);
  }

  /** A tick delivers the earliest event if it is due, and else none is. */
  lemma TickDeliversDue(s: Sched, n: u64)
    requires Sorted(s.queue)
    ensures
      var now := (s.ticks + n) % U64;
      var (s', e) := DoTick(s, n);
      && s'.ticks == now
      && (e.None? ==> s'.queue == s.queue && forall i :: 0 <= i < |s.queue| ==> s.queue[i].time > now)
      && (e.Some? ==> s.queue == [e.value] + s'.queue && e.value.time <= now
                      && forall i :: 0 <= i < |s'.queue| ==> e.value.time <= s'.queue[i].time)
  {}

  lemma SortedAfterRemoval(q: Queue, k: nat)
    requires Sorted(q) && k < |q|
    ensures Sorted(q[..k] + q[k + 1..])
  {}

  lemma RemoveSorted(q: Queue, kind: EventType)
    requires Sorted(q)
    ensures Sorted(Remove(q, kind))
  {}

  lemma {:induction false} CountAppend(a: Queue, b: Queue, kind: EventType)
    ensures Count(a + b, kind) == Count(a, kind) + Count(b, kind)
  {
    if a == [] {
      assert a + b == b;
    } else {
      assert (a + b)[1..] == a[1..] + b;
      CountAppend(a[1..], b, kind);
    }
  }

  lemma InsertCount(q: Queue, e: Event, kind: EventType)
    ensures Count(Insert(q, e), kind) == Count(q, kind) + (if e.kind == kind then 1 else 0)
    ensures |Insert(q, e)| == |q| + 1
  {
    var k := Position(q, e.time);
    assert q == q[..k] + q[k..];
    CountAppend(q[..k], q[k..], kind);
    CountAppend(q[..k] + [e], q[k..], kind);
    CountAppend(q[..k], [e], kind);
  }

  lemma {:induction false} NoneCounted(q: Queue, kind: EventType)
    ensures Count(q, kind) == 0 <==> forall i :: 0 <= i < |q| ==> q[i].kind != kind
  {
    if q != [] {
      NoneCounted(q[1..], kind);
      assert forall i :: 1 <= i < |q| ==> q[i] == q[1..][i - 1];
    }
  }

  lemma RemoveCount(q: Queue, kind: EventType, other: EventType)
    ensures Removed(q, kind).None? <==> Count(q, kind) == 0
    ensures Count(Remove(q, kind), other) ==
      Count(q, other) - (if other == kind && Count(q, kind) > 0 then 1 else 0)
  {
    var k := FindKind(q, kind, 0);
    NoneCounted(q, kind);
    if k < |q| {
      assert q == q[..k] + ([q[k]] + q[k + 1..]);
      CountAppend(q[..k], [q[k]] + q[k + 1..], other);
      CountAppend([q[k]], q[k + 1..], other);
      CountAppend(q[..k], q[k + 1..], other);
    }
  }

  /** Removing a kind takes its earliest event, and only if there is one. */
  lemma RemoveTakesFirst(q: Queue, kind: EventType)
    requires Sorted(q)
    ensures Removed(q, kind).None? ==> Remove(q, kind) == q && forall x :: x in q ==> x.kind != kind
    ensures Removed(q, kind).Some? ==>
      var e := Removed(q, kind).value;
      e in q && e.kind == kind && forall x :: x in q && x.kind == kind ==> e.time <= x.time
  {}

  lemma RemoveLength(q: Queue, kind: EventType)
    ensures |Remove(q, kind)| <= |q|
  {}

  lemma InsertMultiset(q: Queue, e: Event)
    ensures multiset(Insert(q, e)) == multiset(q) + multiset{e}
  {
    var k := Position(q, e.time);
    assert q == q[..k] + q[k..];
  }

  lemma RemoveMultiset(q: Queue, kind: EventType)
    ensures multiset(q) == multiset(Remove(q, kind)) +
      (match Removed(q, kind) case None => multiset{} case Some(e) => multiset{e})
  {
    var k := FindKind(q, kind, 0);
    if k < |q| {
      assert q == q[..k] + [q[k]] + q[k + 1..];
    }
  }

  // ----- Runs -----

  datatype Sched = Sched(ticks: u64, queue: Queue)

  datatype Call =
    | Enqueue(inTicks: u64, kind: EventType)
    | Tick(ticks: u64)
    | RemoveKind(kind: EventType)

  /** Everything that ever happened to events, besides the pending queue. */
  datatype Log = Log(enqueued: seq<Event>, delivered: seq<Event>, removed: seq<Event>)

  function DoEnqueue(s: Sched, inTicks: u64, kind: EventType): Sched {
    s.(queue := Insert(s.queue, Event((s.ticks + inTicks) % U64, kind)))
  }

  function DoTick(s: Sched, ticks: u64): (r: (Sched, Option<Event>)) {
    var now := (s.ticks + ticks) % U64;
    if s.queue != [] && s.queue[0].time <= now then (Sched(now, s.queue[1..]), Some(s.queue[0]))
    else (Sched(now, s.queue), None)
  }

  function ToSeq(o: Option<Event>): seq<Event> {
    match o case None => [] case Some(e) => [e]
  }

  function DoCall(s: Sched, log: Log, c: Call): (Sched, Log) {
    match c
    case Enqueue(n, kind) =>
      (DoEnqueue(s, n, kind), log.(enqueued := log.enqueued + [Event((s.ticks + n) % U64, kind)]))
    case Tick(n) =>
      var (s', e) := DoTick(s, n);
      (s', log.(delivered := log.delivered + ToSeq(e)))
    case RemoveKind(kind) =>
      (s.(queue := Remove(s.queue, kind)), log.(removed := log.removed + ToSeq(Removed(s.queue, kind))))
  }

  function Run(s: Sched, log: Log, calls: seq<Call>): (Sched, Log)
    decreases |calls|
  {
    if calls == [] then (s, log)
    else
      var (s', log') := DoCall(s, log, calls[0]);
      Run(s', log', calls[1..])
  }

  /** No tick count or event time passes 2^64 during the run. */
  predicate NoWrap(s: Sched, log: Log, calls: seq<Call>)
    decreases |calls|
  {
    calls != [] ==>
      && (match calls[0]
          case Enqueue(n, _) => s.ticks + n < U64
          case Tick(n) => s.ticks + n < U64
          case RemoveKind(_) => true)
      && NoWrap(DoCall(s, log, calls[0]).0, DoCall(s, log, calls[0]).1, calls[1..])
  }

  /** Enqueued events are exactly the delivered, the removed and the pending ones. */
  predicate Conserved(s: Sched, log: Log) {
    multiset(log.enqueued) == multiset(log.delivered) + multiset(log.removed) + multiset(s.queue)
  }

  /** Deliveries are in time order, none is in the future, and nothing pending is
      due before the last of them. */
  predicate InOrder(s: Sched, log: Log) {
    && Sorted(s.queue)
    && Sorted(log.delivered)
    && (log.delivered != [] ==>
         var last := log.delivered[|log.delivered| - 1].time;
         last <= s.ticks && forall i :: 0 <= i < |s.queue| ==> last <= s.queue[i].time)
  }

  lemma EnqueueConserves(s: Sched, log: Log, n: u64, kind: EventType)
    requires Conserved(s, log)
    ensures var (s', log') := DoCall(s, log, Enqueue(n, kind)); Conserved(s', log')
  {
    hide Insert;
    InsertMultiset(s.queue, Event((s.ticks + n) % U64, kind));
  }

  lemma TickConserves(s: Sched, log: Log, n: u64)
    requires Conserved(s, log)
    ensures var (s', log') := DoCall(s, log, Tick(n)); Conserved(s', log')
  {
    var (s', e) := DoTick(s, n);
    assert multiset(s.queue) == multiset(ToSeq(e)) + multiset(s'.queue) by {
      if e.Some? {
        assert s.queue == [s.queue[0]] + s.queue[1..];
      }
    }
    assert multiset(log.delivered + ToSeq(e)) == multiset(log.delivered) + multiset(ToSeq(e));
  }

  lemma RemoveConserves(s: Sched, log: Log, kind: EventType)
    requires Conserved(s, log)
    ensures var (s', log') := DoCall(s, log, RemoveKind(kind)); Conserved(s', log')
  {
    hide Remove, Removed;
    RemoveMultiset(s.queue, kind);
    var e := Removed(s.queue, kind);
    assert multiset(log.removed + ToSeq(e)) == multiset(log.removed) + multiset(ToSeq(e));
  }

  lemma InsertMembers(q: Queue, e: Event, i: nat)
    requires i < |Insert(q, e)|
    ensures Insert(q, e)[i] == e || Insert(q, e)[i] in q
  {}

  lemma EnqueueKeepsOrder(s: Sched, log: Log, n: u64, kind: EventType)
    requires InOrder(s, log) && s.ticks + n < U64
    ensures var (s', log') := DoCall(s, log, Enqueue(n, kind)); InOrder(s', log')
  {
    hide Insert;
    var e := Event((s.ticks + n) % U64, kind);
    InsertSorted(s.queue, e);
    forall i | 0 <= i < |Insert(s.queue, e)|
      ensures log.delivered != [] ==> log.delivered[|log.delivered| - 1].time <= Insert(s.queue, e)[i].time
    {
      InsertMembers(s.queue, e, i);
    }
  }

  lemma TickKeepsOrder(s: Sched, log: Log, n: u64)
    requires InOrder(s, log) && s.ticks + n < U64
    ensures var (s', log') := DoCall(s, log, Tick(n)); InOrder(s', log')
  {
    var (s', e) := DoTick(s, n);
    if e.None? {
      assert log.delivered + ToSeq(e) == log.delivered;
    }
  }

  lemma RemoveKeepsOrder(s: Sched, log: Log, kind: EventType)
    requires InOrder(s, log)
    ensures var (s', log') := DoCall(s, log, RemoveKind(kind)); InOrder(s', log')
  {
    RemoveSorted(s.queue, kind);
  }

  lemma CallConserves(s: Sched, log: Log, c: Call)
    requires Conserved(s, log)
    ensures Conserved(DoCall(s, log, c).0, DoCall(s, log, c).1)
  {
    hide DoCall, Conserved;
    match c
    case Enqueue(n, kind) => EnqueueConserves(s, log, n, kind);
    case Tick(n) => TickConserves(s, log, n);
    case RemoveKind(kind) => RemoveConserves(s, log, kind);
  }

  lemma CallKeepsOrder(s: Sched, log: Log, c: Call)
    requires InOrder(s, log) && NoWrap(s, log, [c])
    ensures InOrder(DoCall(s, log, c).0, DoCall(s, log, c).1)
  {
    hide DoCall, InOrder;
    match c
    case Enqueue(n, kind) => EnqueueKeepsOrder(s, log, n, kind);
    case Tick(n) => TickKeepsOrder(s, log, n);
    case RemoveKind(kind) => RemoveKeepsOrder(s, log, kind);
  }

  /** Conservation over every run. */
  lemma {:induction false} RunConserves(s: Sched, log: Log, calls: seq<Call>)
    requires Conserved(s, log)
    ensures Conserved(Run(s, log, calls).0, Run(s, log, calls).1)
    decreases |calls|
  {
    if calls != [] {
      CallConserves(s, log, calls[0]);
      RunConserves(DoCall(s, log, calls[0]).0, DoCall(s, log, calls[0]).1, calls[1..]);
    }
  }

  /** Over every run without wrap-around, events are delivered in time order. */
  lemma {:induction false} RunDeliversInOrder(s: Sched, log: Log, calls: seq<Call>)
    requires InOrder(s, log) && NoWrap(s, log, calls)
    ensures InOrder(Run(s, log, calls).0, Run(s, log, calls).1)
    decreases |calls|
  {
    if calls != [] {
      CallKeepsOrder(s, log, calls[0]);
      RunDeliversInOrder(DoCall(s, log, calls[0]).0, DoCall(s, log, calls[0]).1, calls[1..]);
    }
  }
}
