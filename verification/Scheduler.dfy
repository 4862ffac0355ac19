/** The scheduler's linked list of events, whose nodes come from a fixed pool of
    ten through a stack of free nodes. */
module SchedulerList {
  import opened EventQueue

  class EventNode {
    var event: Event
    var next: EventNode?

    constructor ()
      ensures next == null
    {
      event := Event(0, SiDmaComplete);
      next := null;
    }
  }

  class Scheduler {
    var ticks: u64
    const pool: seq<EventNode>
    const freeNodes: array<EventNode>
    var freePtr: nat
    var list: EventNode?
    /** The nodes of the list, in list order. */
    ghost var nodes: seq<EventNode>

    ghost function Repr(): set<object> {
      {this, freeNodes} + set n | n in pool
    }

    /** Every pool node is in exactly one place: in the list, on the free stack,
        or `held` by the running call. */
    ghost predicate Partition(held: seq<EventNode>)
      reads this`nodes, this`freePtr, freeNodes
    {
      && |pool| == POOL_SIZE && freeNodes.Length == POOL_SIZE && freePtr <= POOL_SIZE
      && Distinct(pool)
      && multiset(nodes) + multiset(freeNodes[..freePtr]) + multiset(held) == multiset(pool)
    }

    static ghost predicate Distinct(ns: seq<EventNode>) {
      forall i, j :: 0 <= i < j < |ns| ==> ns[i] != ns[j]
    }

    static lemma {:induction false} CountedOnce(ns: seq<EventNode>)
      ensures Distinct(ns) <==> forall n :: multiset(ns)[n] <= 1
    {
      if ns != [] {
        var rest := ns[1..];
        CountedOnce(rest);
        assert ns == [ns[0]] + rest;
        assert forall i :: 0 <= i < |rest| ==> rest[i] == ns[i + 1];
        if Distinct(ns) {
          assert forall i :: 0 <= i < |rest| ==> rest[i] != ns[0];
          assert multiset(rest)[ns[0]] == 0;
        } else if Distinct(rest) {
          var i, j :| 0 <= i < j < |ns| && ns[i] == ns[j];
          assert i == 0 && rest[j - 1] == ns[0];
          assert multiset(rest)[ns[0]] >= 1;
          assert multiset(ns)[ns[0]] == 1 + multiset(rest)[ns[0]];
        } else {
          var n :| multiset(rest)[n] > 1;
          assert multiset(ns)[n] > 1;
        }
      }
    }

    lemma PartitionFacts(held: seq<EventNode>)
      requires Partition(held)
      ensures Distinct(nodes) && |nodes| + freePtr + |held| == POOL_SIZE
      ensures forall n :: n in nodes ==> n in pool && n !in held
      ensures forall n :: n in held || n in freeNodes[..freePtr] ==> n in pool
    {
      CountedOnce(pool);
      forall n ensures multiset(nodes)[n] <= 1 {
        assert multiset(pool)[n] <= 1;
      }
      CountedOnce(nodes);
      assert |multiset(pool)| == |pool|;
      assert |multiset(nodes) + multiset(freeNodes[..freePtr]) + multiset(held)| == |nodes| + freePtr + |held|;
      forall n | n in nodes ensures n in pool && n !in held {
        assert n in multiset(nodes) && n in multiset(pool);
        assert multiset(pool)[n] <= 1;
      }
      forall n | n in held || n in freeNodes[..freePtr] ensures n in pool {
        assert n in multiset(held) || n in multiset(freeNodes[..freePtr]);
        assert n in multiset(pool);
      }
    }

    /** `next` pointers follow `ns` from `first` and end in null. */
    static ghost predicate Chain(first: EventNode?, ns: seq<EventNode>)
      reads (set n | n in ns)`next
    {
      && first == (if ns == [] then null else ns[0])
      && (forall i {:trigger ns[i].next} :: 0 <= i < |ns| - 1 ==> ns[i].next == ns[i + 1])
      && (ns != [] ==> ns[|ns| - 1].next == null)
    }

    ghost predicate Linked()
      reads this`list, this`nodes, (set n | n in nodes)`next
    {
      Chain(list, nodes)
    }

    static ghost function Events(ns: seq<EventNode>): (q: Queue)
      reads (set n | n in ns)`event
      ensures |q| == |ns|
    {
      if ns == [] then [] else [ns[0].event] + Events(ns[1..])
    }

    static lemma {:induction false} EventsAt(ns: seq<EventNode>)
      ensures forall i :: 0 <= i < |ns| ==> Events(ns)[i] == ns[i].event
    {
      if ns != [] {
        EventsAt(ns[1..]);
        forall i | 0 <= i < |ns| ensures Events(ns)[i] == ns[i].event {
          if i > 0 {
            assert Events(ns)[i] == Events(ns[1..])[i - 1] && ns[i] == ns[1..][i - 1];
          }
        }
      }
    }

    static lemma {:induction false} EventsConcat(a: seq<EventNode>, b: seq<EventNode>)
      ensures Events(a + b) == Events(a) + Events(b)
    {
      if a == [] {
        assert a + b == b;
      } else {
        assert (a + b)[1..] == a[1..] + b;
        EventsConcat(a[1..], b);
      }
    }

    static lemma EventsSplit(ns: seq<EventNode>, k: nat)
      requires k <= |ns|
      ensures Events(ns[..k]) == Events(ns)[..k] && Events(ns[k..]) == Events(ns)[k..]
    {
      hide Events;
      assert ns == ns[..k] + ns[k..];
      EventsConcat(ns[..k], ns[k..]);
    }

    static lemma EventsInserted(ns: seq<EventNode>, n: EventNode, k: nat)
      requires k <= |ns|
      ensures Events(ns[..k] + [n] + ns[k..]) == Events(ns)[..k] + [n.event] + Events(ns)[k..]
    {
      assert Events([n]) == [n.event];
      hide Events;
      EventsSplit(ns, k);
      EventsConcat(ns[..k] + [n], ns[k..]);
      EventsConcat(ns[..k], [n]);
    }

    static lemma EventsRemoved(ns: seq<EventNode>, k: nat)
      requires k < |ns|
      ensures Events(ns[..k] + ns[k + 1..]) == Events(ns)[..k] + Events(ns)[k + 1..]
    {
      hide Events;
      EventsSplit(ns, k);
      EventsSplit(ns, k + 1);
      EventsConcat(ns[..k], ns[k + 1..]);
    }

    ghost function Queue(): Queue
      reads this`nodes, (set n | n in nodes)`event
    {
      Events(nodes)
    }

    ghost predicate Valid()
      reads Repr(), nodes
    {
      Partition([]) && Linked() && Sorted(Queue())
    }

    ghost function State(): Sched
      reads this, nodes
    {
      Sched(ticks, Queue())
    }

    constructor ()
      ensures Valid() && State() == Sched(0, []) && fresh(Repr())
    {
      var p: seq<EventNode> := [];
      while |p| < POOL_SIZE
        invariant |p| <= POOL_SIZE
        invariant forall i :: 0 <= i < |p| ==> fresh(p[i])
        invariant forall i, j :: 0 <= i < j < |p| ==> p[i] != p[j]
        decreases POOL_SIZE - |p|
      {
        var n := new EventNode();
        p := p + [n];
      }
      pool := p;
      freeNodes := new EventNode[POOL_SIZE](i requires 0 <= i < |p| => p[i]);
      freePtr := POOL_SIZE;
      ticks := 0;
      list := null;
      nodes := [];
      new;
      assert freeNodes[..freePtr] == pool;
    }

    method AllocEventNode() returns (n: EventNode)
      requires Partition([]) && |nodes| < POOL_SIZE
      modifies this`freePtr
      ensures Partition([n]) && n in pool
    {
      PartitionFacts([]);
      freePtr := freePtr - 1;
      n := freeNodes[freePtr];
      assert old(freeNodes[..freePtr]) == freeNodes[..freePtr] + [n];
    }

    method FreeEventNode(n: EventNode)
      requires Partition([n])
      modifies this`freePtr, freeNodes
      ensures Partition([])
    {
      PartitionFacts([n]);
      freeNodes[freePtr] := n;
      freePtr := freePtr + 1;
      assert freeNodes[..freePtr] == old(freeNodes[..freePtr]) + [n];
    }

    /** Delivers at most one due event. */
    method Tick(n: u64) returns (e: Option<Event>)
      requires Valid()
      modifies Repr()
      ensures Valid() && (State(), e) == DoTick(old(State()), n)
    {
      hide Partition, Events;
      EventsAt(nodes);
      ticks := (ticks + n) % U64;
      if list != null && list.event.time <= ticks {
        e := Some(list.event);
        PopHead();
      } else {
        e := None;
      }
    }

    method PopHead()
      requires Valid() && list != null
      modifies this, freeNodes
      ensures Valid() && ticks == old(ticks) && Queue() == old(Queue())[1..]
    {
      hide Partition, Distinct, Events;
      PartitionFacts([]);
      Discard(null, list, 0);
    }

    /** Takes node `i` out of the list and frees it. */
    method Discard(prev: EventNode?, node: EventNode, ghost i: nat)
      requires Valid() && i < |nodes| && node == nodes[i]
      requires prev == if i == 0 then null else nodes[i - 1]
      modifies this`list, this`nodes, this`freePtr, freeNodes, (if prev == null then {} else {prev})`next
      ensures Valid() && Queue() == old(Queue()[..i] + Queue()[i + 1..])
    {
      hide Partition, Distinct, Events, Chain, Sorted;
      ghost var q := Queue();
      SortedAfterRemoval(q, i);
      PartitionFacts([]);
      UnlinkPointers(prev, node, nodes, i);
      EventsRemoved(nodes, i);
      TakeOut(node, i);
      FreeEventNode(node);
      assert Queue() == q[..i] + q[i + 1..];
    }

    /** Ghost bookkeeping: node `i` is no longer in the list but in hand. */
    ghost method TakeOut(node: EventNode, i: nat)
      requires Partition([]) && i < |nodes| && node == nodes[i]
      modifies this`nodes
      ensures Partition([node]) && nodes == old(nodes)[..i] + old(nodes)[i + 1..]
    {
      assert nodes == nodes[..i] + [node] + nodes[i + 1..];
      nodes := nodes[..i] + nodes[i + 1..];
    }

    /** Ghost bookkeeping: the node in hand is now the list's node `k`. */
    ghost method PutIn(node: EventNode, k: nat)
      requires Partition([node]) && k <= |nodes|
      modifies this`nodes
      ensures Partition([]) && nodes == old(nodes)[..k] + [node] + old(nodes)[k..]
    {
      assert nodes == nodes[..k] + nodes[k..];
      nodes := nodes[..k] + [node] + nodes[k..];
    }

    /** The last node the new one goes after, when it does not go first. */
    method FindPredecessor(at: u64) returns (n: EventNode)
      requires Linked() && list != null && list.event.time <= at
      ensures var k := Position(Queue(), at); 1 <= k <= |nodes| && n == nodes[k - 1]
    {
      hide Events;
      EventsAt(nodes);
      n := list;
      ghost var i := 0;
      while n.next != null && n.next.event.time < at
        invariant 0 <= i < |nodes| && n == nodes[i]
        invariant PositionFrom(Queue(), at, 1) == PositionFrom(Queue(), at, i + 1)
        decreases |nodes| - i
      {
        n := n.next;
        i := i + 1;
      }
    }

    /** Puts `ins` into the chain at position `k`, after `prev` or first. */
    method LinkPointers(prev: EventNode?, ins: EventNode, ghost ns: seq<EventNode>, ghost k: nat)
      requires Chain(list, ns) && Distinct(ns) && ins !in ns && k <= |ns|
      requires prev == if k == 0 then null else ns[k - 1]
      modifies this`list, ins`next, (if prev == null then {} else {prev})`next
      ensures Chain(list, ns[..k] + [ins] + ns[k..])
    {
      if prev == null {
        ins.next := list;
        list := ins;
      } else {
        var oldNext := prev.next;
        prev.next := ins;
        ins.next := oldNext;
      }
    }

    /** Takes node `i` out of the chain, through the pointer that leads to it. */
    method UnlinkPointers(prev: EventNode?, node: EventNode, ghost ns: seq<EventNode>, ghost i: nat)
      requires Chain(list, ns) && Distinct(ns) && i < |ns| && node == ns[i]
      requires prev == if i == 0 then null else ns[i - 1]
      modifies this`list, (if prev == null then {} else {prev})`next
      ensures Chain(list, ns[..i] + ns[i + 1..])
    {
      if prev == null {
        list := node.next;
      } else {
        prev.next := node.next;
      }
    }

    /** A free node, off the list, holding `e`. */
    method TakeNode(e: Event) returns (ins: EventNode)
      requires Valid() && |nodes| < POOL_SIZE
      modifies this`freePtr, set n | n in pool
      ensures Partition([ins]) && Linked() && Distinct(nodes) && ins !in nodes && ins in pool
      ensures ins.event == e && Queue() == old(Queue())
      ensures forall n :: n in nodes ==> n in pool
    {
      hide Sorted, Events;
      EventsAt(nodes);
      ins := AllocEventNode();
      PartitionFacts([ins]);
      hide Partition;
      ins.next := null;
      ins.event := e;
      EventsAt(nodes);
    }

    method EnqueueAbsolute(at: u64, kind: EventType)
      requires Valid() && |Queue()| < POOL_SIZE
      modifies Repr()
      ensures Valid() && ticks == old(ticks)
      ensures Queue() == Insert(old(Queue()), Event(at, kind))
    {
      hide Partition, Distinct, Events, Sorted;
      ghost var q := Queue();
      InsertSorted(q, Event(at, kind));
      var ins := TakeNode(Event(at, kind));
      EventsAt(nodes);
      if list == null || at < list.event.time {
        InsertAt(null, ins, 0);
      } else {
        var n := FindPredecessor(at);
        InsertAt(n, ins, Position(q, at));
      }
    }

    method InsertAt(prev: EventNode?, ins: EventNode, ghost k: nat)
      requires Partition([ins]) && Linked() && Distinct(nodes) && ins !in nodes && k <= |nodes|
      requires prev == if k == 0 then null else nodes[k - 1]
      modifies this`list, this`nodes, ins`next, (if prev == null then {} else {prev})`next
      ensures Partition([]) && Linked() && Queue() == old(Queue()[..k] + [ins.event] + Queue()[k..])
    {
      hide Partition, Distinct, Events, Chain;
      LinkPointers(prev, ins, nodes, k);
      EventsInserted(nodes, ins, k);
      PutIn(ins, k);
    }

    method EnqueueRelative(inTicks: u64, kind: EventType)
      requires Valid() && |Queue()| < POOL_SIZE
      modifies Repr()
      ensures Valid() && State() == DoEnqueue(old(State()), inTicks, kind)
    {
      hide Insert, Partition, Events;
      EnqueueAbsolute((ticks + inTicks) % U64, kind);
    }

    /** Removes the first event of a kind and returns how far off it was. */
    method RemoveEvent(kind: EventType) returns (inCycles: u64)
      requires Valid()
      modifies Repr()
      ensures Valid() && ticks == old(ticks)
      ensures Queue() == Remove(old(Queue()), kind)
      ensures match Removed(old(Queue()), kind)
              case None => inCycles == 0
              case Some(e) => inCycles == (e.time - ticks) % U64
    {
      ghost var q := Queue();
      hide Partition, Distinct, Events, Sorted, FindKind;
      var prev, node, i := FindNode(kind);
      PartitionFacts([]);
      if node == null {
        return 0;
      }
      inCycles := (node.event.time - ticks) % U64;
      Discard(prev, node, i);
    }

    /** The first node of a kind and the one before it. */
    method FindNode(kind: EventType) returns (prev: EventNode?, node: EventNode?, ghost i: nat)
      requires Linked()
      ensures i == FindKind(Queue(), kind, 0)
      ensures node == if i < |nodes| then nodes[i] else null
      ensures prev == if i == 0 then null else nodes[i - 1]
      ensures node != null ==> node.event == Queue()[i]
    {
      hide Events;
      EventsAt(nodes);
      node := list;
      prev := null;
      i := 0;
      while node != null && node.event.kind != kind
        invariant 0 <= i <= |nodes|
        invariant node == if i < |nodes| then nodes[i] else null
        invariant prev == if i == 0 then null else nodes[i - 1]
        invariant FindKind(Queue(), kind, 0) == FindKind(Queue(), kind, i)
        decreases |nodes| - i
      {
        prev := node;
        node := node.next;
        i := i + 1;
      }
    }

    method TicksUntilNextEvent() returns (r: u64)
      requires Valid()
      ensures var q := State().queue;
        r == if q == [] || q[0].time < ticks then 1 else q[0].time - ticks
    {
      EventsAt(nodes);
      if list != null {
        var nextEventTicks := list.event.time;
        if nextEventTicks < ticks {
          return 1;
        }
        return nextEventTicks - ticks;
      } else {
        return 1;
      }
    }
  }
}
