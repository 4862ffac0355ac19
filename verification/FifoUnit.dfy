/** The ring buffer as it is updated in place. */
module FifoUnit {
  import opened Fifo
  import opened FifoRuns

  /** A ring after `bytes` were laid from `tail` on, in one part or two. */
  predicate Laid(d: Bytes, e: Bytes, tail: nat, bytes: Bytes)
    requires |d| == |e| && tail < |d| && |bytes| <= |d|
  {
    forall i :: 0 <= i < |d| ==>
      e[i] ==
        if tail <= i < tail + |bytes| then bytes[i - tail]
        else if i < tail + |bytes| - |d| then bytes[i + |d| - tail]
        else d[i]
  }

  /** Laying bytes in the free room appends them to the queue. */
  lemma LaidAppends(d: Bytes, e: Bytes, head: nat, tail: nat, bytes: Bytes)
    requires |d| == |e| && head < |d| && tail < |d| && |bytes| <= Remaining(|d|, head, tail)
    requires Laid(d, e, tail, bytes)
    ensures 0 <= Wrap(tail + |bytes|, |d|) < |d|
    ensures Contents(e, head, Wrap(tail + |bytes|, |d|)) == Contents(d, head, tail) + bytes
  {
    var n := |bytes|;
    var avail := Available(|d|, head, tail);
    Moved(|d|, head, tail, n);
    var v, w := Window(e, head, avail + n), Contents(d, head, tail) + bytes;
    forall k | 0 <= k < avail + n ensures v[k] == w[k] {
      var i := Wrap(head + k, |d|);
      assert v[k] == e[i];
      if k < avail {
        assert e[i] == d[i];
      } else {
        assert w[k] == bytes[k - avail];
      }
    }
    assert v == w;
  }

  lemma WindowFront(data: Bytes, at: nat, n: nat, m: nat)
    requires at < |data| && n <= m <= |data|
    ensures Window(data, at, m)[..n] == Window(data, at, n)
  {}

  lemma WindowIs(data: Bytes, at: nat, w: Bytes)
    requires at < |data| && |w| <= |data|
    requires forall k :: 0 <= k < |w| ==> w[k] == data[Wrap(at + k, |data|)]
    ensures w == Window(data, at, |w|)
  {}

  method CopyBytes(src: array<byte>, from: nat, dst: array<byte>, at: nat, n: nat)
    requires src != dst && from + n <= src.Length && at + n <= dst.Length
    modifies dst
    ensures forall i :: at <= i < at + n ==> dst[i] == src[from + (i - at)]
    ensures forall i :: 0 <= i < dst.Length && !(at <= i < at + n) ==> dst[i] == old(dst[i])
  {
    var k := 0;
    while k < n
      invariant 0 <= k <= n
      invariant forall j :: at <= j < at + k ==> dst[j] == src[from + (j - at)]
      invariant forall i :: 0 <= i < dst.Length && !(at <= i < at + k) ==> dst[i] == old(dst[i])
    {
      dst[at + k] := src[from + k];
      k := k + 1;
    }
  }

  class RingBuffer {
    const data: array<byte>
    const size: nat
    const mask: nat
    var head: nat
    var tail: nat
    ghost const order: nat

    ghost predicate Valid()
      reads this
    {
      && order <= 30 && size == Pow2(order) == data.Length && mask == size - 1
      && head < size && tail < size
    }

    ghost function Queue(): Bytes
      requires Valid()
      reads this, data
    {
      Contents(data[..], head, tail)
    }

    /** An empty ring of the least power of two not below the request. */
    constructor (request: nat)
      requires request <= TOP / 2
      ensures Valid() && fresh(data) && Queue() == []
      ensures request <= size && forall k: nat :: request <= Pow2(k) ==> size <= Pow2(k)
    {
      HalfTop();
      Npow2IsLeast(request, 30);
      var n := Npow2(request);
      ghost var j: nat :| j <= 31 && n == Pow2(j);
      forall k: nat ensures request <= Pow2(k) <==> n <= Pow2(k) {
        Npow2IsLeast(request, k);
      }
      OrderBound(n, j);
      order := j;
      size := n;
      mask := n - 1;
      data := new byte[n];
      head, tail := 0, 0;
    }

    method ReadAvailable() returns (n: nat)
      requires Valid()
      ensures n == |Queue()|
    {
      MaskWraps(tail - head, order);
      n := Masked(tail - head, mask);
    }

    method WriteRemaining() returns (n: nat)
      requires Valid()
      ensures n + |Queue()| == size - 1
    {
      var available := ReadAvailable();
      n := mask - available;
    }

    /** Copies `n` bytes in at the tail, in two parts where they pass the end. */
    method CopyIn(buf: array<byte>, n: nat)
      requires Valid() && buf != data && n <= buf.Length && n <= size
      modifies data
      ensures Laid(old(data[..]), data[..], tail, buf[..n])
    {
      if tail + n > size {
        var sizeA := size - tail;
        CopyBytes(buf, 0, data, tail, sizeA);
        CopyBytes(buf, sizeA, data, 0, n - sizeA);
      } else {
        CopyBytes(buf, 0, data, tail, n);
      }
    }

    /** Copies `n` bytes out from the head. */
    method CopyOut(buf: array<byte>, n: nat)
      requires Valid() && buf != data && n <= buf.Length && n <= size
      modifies buf
      ensures forall k :: 0 <= k < n ==> buf[k] == data[Wrap(head + k, size)]
      ensures forall k :: n <= k < buf.Length ==> buf[k] == old(buf[k])
    {
      if head + n > size {
        var sizeA := size - head;
        CopyBytes(data, head, buf, 0, sizeA);
        CopyBytes(data, 0, buf, sizeA, n - sizeA);
      } else {
        CopyBytes(data, head, buf, 0, n);
      }
    }

    /** Appends `n` bytes. */
    method Write(buf: array<byte>, n: nat)
      requires Valid() && buf != data && n <= buf.Length && n + |Queue()| <= size - 1
      modifies this`tail, data
      ensures Valid() && Queue() == old(Queue()) + buf[..n]
    {
      ghost var was := data[..];
      CopyIn(buf, n);
      LaidAppends(was, data[..], head, tail, buf[..n]);
      MaskWraps(tail + n, order);
      hide *;
      tail := Masked(tail + n, mask);
    }

    /** Takes the `n` oldest bytes. */
    method Read(buf: array<byte>, n: nat)
      requires Valid() && buf != data && n <= buf.Length && n <= |Queue()|
      modifies this`head, buf
      ensures Valid() && buf[..n] == old(Queue())[..n] && Queue() == old(Queue())[n..]
      ensures buf[n..] == old(buf[n..])
    {
      var available := ReadAvailable();
      WindowFront(data[..], head, n, available);
      WindowSplits(data[..], head, n, available);
      Moved(size, head, tail, n);
      CopyOut(buf, n);
      WindowIs(data[..], head, buf[..n]);
      MaskWraps(head + n, order);
      hide Window, Wrap, Available, Masked, Pow2;
      head := Masked(head + n, mask);
    }
  }

  lemma HalfTop()
    ensures Pow2(30) == TOP / 2
  {
    Pow2Top();
    assert Pow2(31) == 2 * Pow2(30);
  }

  lemma OrderBound(n: nat, j: nat)
    requires n == Pow2(j) <= Pow2(30)
    ensures j <= 30
  {
    if j > 30 {
      Pow2Grows(31, j);
    }
  }
}
