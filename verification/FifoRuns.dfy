/** The ring buffer shared by one producer and one consumer: every interleaving of
    their byte copies and index updates delivers the bytes in the order written. */
module FifoRuns {
  import opened Fifo

  /** Bytes a reader may take. */
  function Available(size: nat, head: nat, tail: nat): nat
    requires head < size && tail < size
  {
    Wrap(tail - head, size)
  }

  /** Bytes a writer may put; one place always stays free. */
  function Remaining(size: nat, head: nat, tail: nat): nat
    requires head < size && tail < size
  {
    size - 1 - Available(size, head, tail)
  }

  /** Where byte `k` of an `n`-byte copy at `at` goes: the part up to the end of the
      array, then the rest from its start. */
  function Slot(size: nat, at: nat, n: nat, k: nat): nat
    requires at < size && k < n <= size
  {
    if at + n > size then
      var first := size - at;
      if k < first then at + k else k - first
    else at + k
  }

  /** A two-part copy stays in bounds and fills the ring from `at` on. */
  lemma SlotWraps(size: nat, at: nat, n: nat, k: nat)
    requires at < size && k < n <= size
    ensures Slot(size, at, n, k) < size && Slot(size, at, n, k) == Wrap(at + k, size)
  {}

  /** The `n` bytes from `at` on. */
  function Window(data: Bytes, at: nat, n: nat): (w: Bytes)
    requires at < |data| && n <= |data|
    ensures |w| == n
  {
    seq(n, k requires 0 <= k < n => data[Wrap(at + k, |data|)])
  }

  /** The queue the indices describe. */
  function Contents(data: Bytes, head: nat, tail: nat): Bytes
    requires head < |data| && tail < |data|
  {
    Window(data, head, Available(|data|, head, tail))
  }

  datatype Producer = NotWriting | Writing(bytes: Bytes, done: nat)

  datatype Consumer = NotReading | Reading(count: nat, got: Bytes)

  /** The shared ring, the two threads, and what has been written and delivered. */
  datatype System = System(data: Bytes, head: nat, tail: nat, producer: Producer, consumer: Consumer,
                           written: Bytes, delivered: Bytes)

  datatype Event = StartWrite(bytes: Bytes) | CopyIn | PublishTail | StartRead(count: nat) | CopyOut | PublishHead

  predicate Indexed(s: System) { s.head < |s.data| && s.tail < |s.data| }

  /** A thread starts only within the room it saw, and copies before it publishes. */
  predicate Enabled(s: System, e: Event)
    requires Indexed(s)
  {
    match e
    case StartWrite(bytes) => s.producer.NotWriting? && |bytes| <= Remaining(|s.data|, s.head, s.tail)
    case CopyIn => s.producer.Writing? && s.producer.done < |s.producer.bytes| <= |s.data|
    case PublishTail => s.producer.Writing? && s.producer.done == |s.producer.bytes| <= |s.data|
    case StartRead(count) => s.consumer.NotReading? && count <= Available(|s.data|, s.head, s.tail)
    case CopyOut => s.consumer.Reading? && |s.consumer.got| < s.consumer.count <= |s.data|
    case PublishHead => s.consumer.Reading? && |s.consumer.got| == s.consumer.count <= |s.data|
  }

  function Next(s: System, e: Event): (r: System)
    requires Indexed(s) && Enabled(s, e)
    ensures Indexed(r) && |r.data| == |s.data|
  {
    match e
    case StartWrite(bytes) => s.(producer := Writing(bytes, 0))
    case CopyIn =>
      var p := s.producer;
      s.(data := s.data[Slot(|s.data|, s.tail, |p.bytes|, p.done) := p.bytes[p.done]], producer := p.(done := p.done + 1))
    case PublishTail =>
      var p := s.producer;
      s.(tail := Wrap(s.tail + |p.bytes|, |s.data|), producer := NotWriting, written := s.written + p.bytes)
    case StartRead(count) => s.(consumer := Reading(count, []))
    case CopyOut =>
      var c := s.consumer;
      s.(consumer := c.(got := c.got + [s.data[Slot(|s.data|, s.head, c.count, |c.got|)]]))
    case PublishHead =>
      var c := s.consumer;
      s.(head := Wrap(s.head + c.count, |s.data|), consumer := NotReading, delivered := s.delivered + c.got)
  }

  /** Bytes copied in so far lie past the tail, in the free part of the ring. */
  predicate ProducerOk(s: System)
    requires Indexed(s)
  {
    s.producer.Writing? ==>
      && s.producer.done <= |s.producer.bytes| <= Remaining(|s.data|, s.head, s.tail)
      && Window(s.data, s.tail, s.producer.done) == s.producer.bytes[..s.producer.done]
  }

  /** Bytes copied out so far are the front of the queue. */
  predicate ConsumerOk(s: System)
    requires Indexed(s)
  {
    s.consumer.Reading? ==>
      && |s.consumer.got| <= s.consumer.count <= Available(|s.data|, s.head, s.tail)
      && s.consumer.got == Window(s.data, s.head, |s.consumer.got|)
  }

  predicate Inv(s: System) {
    Indexed(s) && ProducerOk(s) && ConsumerOk(s) && s.written == s.delivered + Contents(s.data, s.head, s.tail)
  }

  lemma Room(size: nat, head: nat, tail: nat)
    requires head < size && tail < size
    ensures Available(size, head, tail) + Remaining(size, head, tail) == size - 1
    ensures head == tail <==> Available(size, head, tail) == 0
    ensures Wrap(head + Available(size, head, tail), size) == tail
  {}

  /** Moving the tail lengthens the queue, moving the head shortens it. */
  lemma Moved(size: nat, head: nat, tail: nat, n: nat)
    requires head < size && tail < size
    ensures n <= Remaining(size, head, tail) ==> Available(size, head, Wrap(tail + n, size)) == Available(size, head, tail) + n
    ensures n <= Available(size, head, tail) ==> Available(size, Wrap(head + n, size), tail) == Available(size, head, tail) - n
  {}

  lemma WrapTwice(size: nat, at: nat, i: nat, k: nat)
    requires at < size && i + k < 2 * size && i < size && k < size && i + k < size
    ensures Wrap(Wrap(at + i, size) + k, size) == Wrap(at + i + k, size)
  {}

  lemma WrapInjective(size: nat, at: nat, i: nat, k: nat)
    requires at < size && i < size && k < size && Wrap(at + i, size) == Wrap(at + k, size)
    ensures i == k
  {}

  /** A window is its front followed by the window after it. */
  lemma WindowSplits(data: Bytes, at: nat, i: nat, n: nat)
    requires at < |data| && i <= n < |data|
    ensures 0 <= Wrap(at + i, |data|) < |data|
    ensures Window(data, at, n) == Window(data, at, i) + Window(data, Wrap(at + i, |data|), n - i)
  {
    forall k | 0 <= k < n
      ensures Window(data, at, n)[k] == (Window(data, at, i) + Window(data, Wrap(at + i, |data|), n - i))[k]
    {
      if k >= i {
        WrapTwice(|data|, at, i, k - i);
      }
    }
  }

  /** Writing a place outside a window leaves it. */
  lemma WindowKept(data: Bytes, at: nat, n: nat, j: nat, b: byte)
    requires at < |data| && n <= j < |data|
    ensures Wrap(at + j, |data|) < |data|
    ensures Window(data[Wrap(at + j, |data|) := b], at, n) == Window(data, at, n)
  {
    var d := data[Wrap(at + j, |data|) := b];
    var v, w := Window(d, at, n), Window(data, at, n);
    forall k | 0 <= k < n ensures v[k] == w[k] {
      if Wrap(at + k, |data|) == Wrap(at + j, |data|) {
        WrapInjective(|data|, at, j, k);
      }
    }
  }

  lemma WindowGrows(data: Bytes, at: nat, n: nat)
    requires at < |data| && n < |data|
    ensures Wrap(at + n, |data|) < |data|
    ensures Window(data, at, n + 1) == Window(data, at, n) + [data[Wrap(at + n, |data|)]]
  {}

  lemma CopyInKeeps(s: System)
    requires Inv(s) && Enabled(s, CopyIn)
    ensures Inv(Next(s, CopyIn))
  {
    hide Window, Wrap, Slot, Available, Remaining;
    var size, p := |s.data|, s.producer;
    var avail := Available(size, s.head, s.tail);
    var r := Next(s, CopyIn);
    var b := p.bytes[p.done];
    Room(size, s.head, s.tail);
    SlotWraps(size, s.tail, |p.bytes|, p.done);
    WrapTwice(size, s.head, avail, p.done);
    assert r.data == s.data[Wrap(s.tail + p.done, size) := b];
    WindowKept(s.data, s.head, avail, avail + p.done, b);
    if s.consumer.Reading? {
      WindowKept(s.data, s.head, |s.consumer.got|, avail + p.done, b);
    }
    WindowKept(s.data, s.tail, p.done, p.done, b);
    WindowGrows(r.data, s.tail, p.done);
    assert p.bytes[..p.done + 1] == p.bytes[..p.done] + [b];
  }

  lemma PublishTailKeeps(s: System)
    requires Inv(s) && Enabled(s, PublishTail)
    ensures Inv(Next(s, PublishTail))
  {
    hide Window, Wrap, Slot, Available, Remaining;
    var size, p := |s.data|, s.producer;
    var avail := Available(size, s.head, s.tail);
    Room(size, s.head, s.tail);
    Moved(size, s.head, s.tail, |p.bytes|);
    WindowSplits(s.data, s.head, avail, avail + |p.bytes|);
    assert p.bytes[..p.done] == p.bytes;
    Associates(s.delivered, Window(s.data, s.head, avail), p.bytes);
  }

  lemma Associates(a: Bytes, b: Bytes, c: Bytes)
    ensures a + b + c == a + (b + c)
  {}

  lemma CopyOutKeeps(s: System)
    requires Inv(s) && Enabled(s, CopyOut)
    ensures Inv(Next(s, CopyOut))
  {
    hide Window, Wrap, Slot, Available, Remaining;
    var c := s.consumer;
    Room(|s.data|, s.head, s.tail);
    SlotWraps(|s.data|, s.head, c.count, |c.got|);
    WindowGrows(s.data, s.head, |c.got|);
  }

  lemma PublishHeadKeeps(s: System)
    requires Inv(s) && Enabled(s, PublishHead)
    ensures Inv(Next(s, PublishHead))
  {
    hide Window, Wrap, Slot, Available, Remaining;
    var size, c := |s.data|, s.consumer;
    var avail := Available(size, s.head, s.tail);
    Room(size, s.head, s.tail);
    Moved(size, s.head, s.tail, c.count);
    WindowSplits(s.data, s.head, c.count, avail);
    Room(size, Wrap(s.head + c.count, size), s.tail);
    Associates(s.delivered, c.got, Window(s.data, Wrap(s.head + c.count, size), avail - c.count));
  }

  /** Every step of either thread keeps the queue. */
  lemma StepKeeps(s: System, e: Event)
    requires Inv(s) && Enabled(s, e)
    ensures Inv(Next(s, e))
  {
    match e
    case StartWrite(bytes) => assert Window(s.data, s.tail, 0) == [];
    case CopyIn => CopyInKeeps(s);
    case PublishTail => PublishTailKeeps(s);
    case StartRead(count) => assert Window(s.data, s.head, 0) == [];
    case CopyOut => CopyOutKeeps(s);
    case PublishHead => PublishHeadKeeps(s);
  }

  // ----- Whole runs -----

  predicate Runs(s: System, events: seq<Event>)
    requires Indexed(s)
    decreases |events|
  {
    events == [] || (Enabled(s, events[0]) && Runs(Next(s, events[0]), events[1..]))
  }

  function After(s: System, events: seq<Event>): (r: System)
    requires Indexed(s) && Runs(s, events)
    ensures Indexed(r) && |r.data| == |s.data|
    decreases |events|
  {
    if events == [] then s else After(Next(s, events[0]), events[1..])
  }

  lemma {:induction false} RunKeeps(s: System, events: seq<Event>)
    requires Inv(s) && Runs(s, events)
    ensures Inv(After(s, events))
    decreases |events|
  {
    assert Indexed(s);
    hide Inv, Enabled, Next;
    if events != [] {
      StepKeeps(s, events[0]);
      RunKeeps(Next(s, events[0]), events[1..]);
    }
  }

  function Empty(data: Bytes): System { System(data, 0, 0, NotWriting, NotReading, [], []) }

  /** From an empty ring, under any interleaving: the bytes delivered are a prefix of
      the bytes written, what is missing is exactly what is available, and one place
      stays free. */
  lemma DeliveredInOrder(data: Bytes, events: seq<Event>)
    requires data != [] && Runs(Empty(data), events)
    ensures
      var s := After(Empty(data), events);
      var avail := Available(|s.data|, s.head, s.tail);
      && s.delivered <= s.written
      && |s.written| == |s.delivered| + avail
      && s.written[|s.delivered|..] == Contents(s.data, s.head, s.tail)
      && avail + Remaining(|s.data|, s.head, s.tail) == |data| - 1
  {
    assert Contents(data, 0, 0) == [];
    RunKeeps(Empty(data), events);
    var s := After(Empty(data), events);
    Room(|s.data|, s.head, s.tail);
    hide After, Runs, Window;
  }

  /** What the producer published, in order. */
  function Published(s: System, events: seq<Event>): Bytes
    requires Indexed(s) && Runs(s, events)
    decreases |events|
  {
    if events == [] then []
    else
      (if events[0] == PublishTail then s.producer.bytes else []) + Published(Next(s, events[0]), events[1..])
  }

  lemma {:induction false} WrittenIsPublished(s: System, events: seq<Event>)
    requires Indexed(s) && Runs(s, events)
    ensures After(s, events).written == s.written + Published(s, events)
    decreases |events|
  {
    if events != [] {
      WrittenIsPublished(Next(s, events[0]), events[1..]);
    }
  }
}
