/** Unaligned loads and stores: LWL, LWR, SWL, SWR and their doubleword forms. Each is
    a mask and a shift on one aligned cell; a left-right pair moves `n` bytes at any
    address. */
module Unaligned {
  import opened Swizzle
  import opened ByteCells

  datatype Side = Left | Right

  // ----- The instructions as masks and shifts; `k` is the address within the cell -----

  function LoadWord(s: Side, reg: bv32, data: bv32, k: nat): bv32
    requires k < 4
  {
    match s
    case Left => WordMerge(reg, WordShl(WORD_ONES, k), WordShl(data, k))
    case Right => WordMerge(reg, WordShr(WORD_ONES, 3 - k), WordShr(data, 3 - k))
  }

  function StoreWord(s: Side, reg: bv32, data: bv32, k: nat): bv32
    requires k < 4
  {
    match s
    case Left => WordMerge(data, WordShr(WORD_ONES, k), WordShr(reg, k))
    case Right => WordMerge(data, WordShl(WORD_ONES, 3 - k), WordShl(reg, 3 - k))
  }

  function LoadDword(s: Side, reg: bv64, data: bv64, k: nat): bv64
    requires k < 8
  {
    match s
    case Left => DwordMerge(reg, DwordShl(DWORD_ONES, k), DwordShl(data, k))
    case Right => DwordMerge(reg, DwordShr(DWORD_ONES, 7 - k), DwordShr(data, 7 - k))
  }

  function StoreDword(s: Side, reg: bv64, data: bv64, k: nat): bv64
    requires k < 8
  {
    match s
    case Left => DwordMerge(data, DwordShr(DWORD_ONES, k), DwordShr(reg, k))
    case Right => DwordMerge(data, DwordShl(DWORD_ONES, 7 - k), DwordShl(reg, 7 - k))
  }

  // ----- The same instructions as splices of byte strings -----

  /** A left load takes the cell from `k` on, a right load the cell up to `k`; the
      other end of the register stays. */
  function Loaded(s: Side, r: Bytes, d: Bytes, k: nat): (b: Bytes)
    requires |r| == |d| && k < |d|
    ensures |b| == |d|
  {
    match s
    case Left => d[k..] + r[|r| - k..]
    case Right => r[..|r| - 1 - k] + d[..k + 1]
  }

  /** A left store fills the cell from `k` on with the upper bytes of the register, a
      right store fills it up to `k` with the lower bytes. */
  function Stored(s: Side, r: Bytes, d: Bytes, k: nat): (b: Bytes)
    requires |r| == |d| && k < |d|
    ensures |b| == |d|
  {
    match s
    case Left => d[..k] + r[..|r| - k]
    case Right => r[|r| - 1 - k..] + d[k + 1..]
  }

  lemma WordSplices(s: Side, reg: bv32, data: bv32, k: nat)
    requires k < 4
    ensures WordBytes(LoadWord(s, reg, data, k)) == Loaded(s, WordBytes(reg), WordBytes(data), k)
    ensures WordBytes(StoreWord(s, reg, data, k)) == Stored(s, WordBytes(reg), WordBytes(data), k)
  {
    hide WordBytes, WordMerge, WordShl, WordShr, WORD_ONES;
    var j := 3 - k;
    match s
    case Left =>
      WordMergeUp(reg, data, k);
      WordMergeDown(data, reg, k);
    case Right =>
      WordMergeDown(reg, data, j);
      WordMergeUp(data, reg, j);
  }

  lemma DwordSplices(s: Side, reg: bv64, data: bv64, k: nat)
    requires k < 8
    ensures DwordBytes(LoadDword(s, reg, data, k)) == Loaded(s, DwordBytes(reg), DwordBytes(data), k)
    ensures DwordBytes(StoreDword(s, reg, data, k)) == Stored(s, DwordBytes(reg), DwordBytes(data), k)
  {
    hide DwordBytes, DwordMerge, DwordShl, DwordShr, DWORD_ONES;
    var j := 7 - k;
    match s
    case Left =>
      DwordMergeUp(reg, data, k);
      DwordMergeDown(data, reg, k);
    case Right =>
      DwordMergeDown(reg, data, j);
      DwordMergeUp(data, reg, j);
  }

  // ----- On memory -----

  /** The cell an address falls in, and where in it. */
  function Offset(n: nat, a: nat): (k: nat)
    requires n > 0
    ensures k < n
  {
    a % n
  }

  function Base(n: nat, a: nat): nat
    requires n > 0
  {
    a - a % n
  }

  /** The whole cell around `a` is in memory. */
  predicate InMemory(n: nat, m: Bytes, a: nat)
    requires n > 0
  {
    Base(n, a) + n <= |m|
  }

  /** A load or store at offset `k` of the cell at `b`. */
  function LoadAt(s: Side, n: nat, m: Bytes, b: nat, k: nat, r: Bytes): (v: Bytes)
    requires |r| == n && b + n <= |m| && k < n
    ensures |v| == n
  {
    Loaded(s, r, m[b..b + n], k)
  }

  function StoreAt(s: Side, n: nat, m: Bytes, b: nat, k: nat, r: Bytes): (v: Bytes)
    requires |r| == n && b + n <= |m| && k < n
    ensures |v| == |m|
  {
    Patch(m, b, Stored(s, r, m[b..b + n], k))
  }

  function Load(s: Side, n: nat, m: Bytes, a: nat, r: Bytes): (v: Bytes)
    requires n > 0 && |r| == n && InMemory(n, m, a)
    ensures |v| == n
  {
    LoadAt(s, n, m, Base(n, a), Offset(n, a), r)
  }

  function Store(s: Side, n: nat, m: Bytes, a: nat, r: Bytes): (v: Bytes)
    requires n > 0 && |r| == n && InMemory(n, m, a)
    ensures |v| == |m|
  {
    StoreAt(s, n, m, Base(n, a), Offset(n, a), r)
  }

  /** Patching in bytes that are already there changes nothing. */
  lemma PatchTail(m: Bytes, b: nat, k: nat, v: Bytes)
    requires b + k + |v| <= |m|
    ensures Patch(m, b, m[b..b + k] + v) == Patch(m, b + k, v)
  {
    var x, y := Patch(m, b, m[b..b + k] + v), Patch(m, b + k, v);
    forall i | 0 <= i < |m| ensures x[i] == y[i] {}
  }

  lemma PatchHead(m: Bytes, b: nat, k: nat, n: nat, v: Bytes)
    requires |v| == k <= n && b + n <= |m|
    ensures Patch(m, b, v + m[b + k..b + n]) == Patch(m, b, v)
  {
    var x, y := Patch(m, b, v + m[b + k..b + n]), Patch(m, b, v);
    forall i | 0 <= i < |m| ensures x[i] == y[i] {}
  }

  lemma SliceHead(m: Bytes, b: nat, k: nat, n: nat)
    requires k <= n && b + n <= |m|
    ensures m[b..b + n][..k] == m[b..b + k]
  {}

  lemma SliceTail(m: Bytes, b: nat, k: nat, n: nat)
    requires k <= n && b + n <= |m|
    ensures m[b..b + n][k..] == m[b + k..b + n]
  {}

  /** A left store writes from its address to the end of the cell, a right store from
      the start of the cell to its address; no other byte changes. */
  lemma StoreTouches(n: nat, m: Bytes, b: nat, k: nat, r: Bytes)
    requires |r| == n && b + n <= |m| && k < n
    ensures StoreAt(Left, n, m, b, k, r) == Patch(m, b + k, r[..n - k])
    ensures StoreAt(Right, n, m, b, k, r) == Patch(m, b, r[n - 1 - k..])
  {
    PatchTail(m, b, k, r[..n - k]);
    PatchHead(m, b, k + 1, n, r[n - 1 - k..]);
    SliceHead(m, b, k, n);
    SliceTail(m, b, k + 1, n);
    hide Patch;
  }

  lemma PatchTwice(m: Bytes, a: nat, x: Bytes, y: Bytes)
    requires a + |x| + |y| <= |m|
    ensures Patch(Patch(m, a, x), a + |x|, y) == Patch(m, a, x + y)
    ensures Patch(Patch(m, a + |x|, y), a, x) == Patch(m, a, x + y)
  {}

  lemma PatchAgain(m: Bytes, a: nat, x: Bytes)
    requires a + |x| <= |m|
    ensures Patch(Patch(m, a, x), a, x) == Patch(m, a, x)
  {}

  lemma Whole(r: Bytes)
    ensures r[..|r|] == r && r[0..] == r
  {}

  /** A pair when the value fills one cell. */
  lemma StoreWhole(n: nat, m: Bytes, b: nat, r: Bytes)
    requires |r| == n > 0 && b + n <= |m|
    ensures StoreAt(Left, n, m, b, 0, r) == Patch(m, b, r)
    ensures StoreAt(Right, n, m, b, n - 1, r) == Patch(m, b, r)
  {
    hide *;
    StoreTouches(n, m, b, 0, r);
    StoreTouches(n, m, b, n - 1, r);
    Whole(r);
  }

  lemma Parts(r: Bytes, j: nat)
    requires j <= |r|
    ensures r[..j] + r[j..] == r
  {}

  /** A pair when the value straddles two cells, left part first. */
  lemma StraddlingLeftFirst(n: nat, m: Bytes, b: nat, k: nat, r: Bytes)
    requires |r| == n && b + n + n <= |m| && 0 < k < n
    ensures StoreAt(Right, n, StoreAt(Left, n, m, b, k, r), b + n, k - 1, r) == Patch(m, b + k, r)
  {
    hide *;
    var x, y, j := r[..n - k], r[n - k..], k - 1;
    assert r[n - 1 - j..] == y;
    StoreTouches(n, m, b, k, r);
    StoreTouches(n, StoreAt(Left, n, m, b, k, r), b + n, j, r);
    PatchTwice(m, b + k, x, y);
    Parts(r, n - k);
  }

  lemma StraddlingRightFirst(n: nat, m: Bytes, b: nat, k: nat, r: Bytes)
    requires |r| == n && b + n + n <= |m| && 0 < k < n
    ensures StoreAt(Left, n, StoreAt(Right, n, m, b + n, k - 1, r), b, k, r) == Patch(m, b + k, r)
  {
    hide *;
    var x, y, j := r[..n - k], r[n - k..], k - 1;
    assert r[n - 1 - j..] == y;
    StoreTouches(n, m, b + n, j, r);
    StoreTouches(n, StoreAt(Right, n, m, b + n, j, r), b, k, r);
    PatchTwice(m, b + k, x, y);
    Parts(r, n - k);
  }

  /** Where the last byte of an `n`-byte value at `a` falls. */
  lemma LastByte(n: nat, a: nat)
    requires n == 4 || n == 8
    ensures Offset(n, a) == 0 ==> Base(n, a + n - 1) == a && Offset(n, a + n - 1) == n - 1
    ensures Offset(n, a) != 0 ==> Base(n, a + n - 1) == Base(n, a) + n && Offset(n, a + n - 1) == Offset(n, a) - 1
  {
    var q, k := a / n, a % n;
    if n == 4 {
      Divide4(q + (if k == 0 then 0 else 1), if k == 0 then 3 else k - 1);
    } else {
      Divide8(q + (if k == 0 then 0 else 1), if k == 0 then 7 else k - 1);
    }
  }

  lemma CellOf(n: nat, a: nat)
    requires n > 0
    ensures Base(n, a) + Offset(n, a) == a
  {}

  lemma Divide4(q: nat, k: nat)
    requires k < 4
    ensures (4 * q + k) % 4 == k
  {}

  lemma Divide8(q: nat, k: nat)
    requires k < 8
    ensures (8 * q + k) % 8 == k
  {}

  lemma StorePairAt(n: nat, m: Bytes, a: nat, b: nat, k: nat, e: nat, j: nat, r: Bytes)
    requires a == b + k && |r| == n && k < n && j < n && b + n <= |m| && e + n <= |m|
    requires if k == 0 then e == b && j == n - 1 else e == b + n && j == k - 1
    ensures a + n <= |m|
    ensures StoreAt(Right, n, StoreAt(Left, n, m, b, k, r), e, j, r) == Patch(m, a, r)
    ensures StoreAt(Left, n, StoreAt(Right, n, m, e, j, r), b, k, r) == Patch(m, a, r)
  {
    hide *;
    if k == 0 {
      StoreWhole(n, m, b, r);
      StoreWhole(n, Patch(m, b, r), b, r);
      PatchAgain(m, b, r);
    } else {
      StraddlingLeftFirst(n, m, b, k, r);
      StraddlingRightFirst(n, m, b, k, r);
    }
  }

  /** A left store at `a` and a right store at `a + n - 1`, in either order, store the
      register at `a` and touch no other byte. */
  lemma StorePair(n: nat, m: Bytes, a: nat, r: Bytes)
    requires (n == 4 || n == 8) && |r| == n && InMemory(n, m, a) && InMemory(n, m, a + n - 1)
    ensures a + n <= |m|
    ensures Store(Right, n, Store(Left, n, m, a, r), a + n - 1, r) == Patch(m, a, r)
    ensures Store(Left, n, Store(Right, n, m, a + n - 1, r), a, r) == Patch(m, a, r)
  {
    LastByte(n, a);
    CellOf(n, a);
    CellOf(n, a + n - 1);
    hide Patch, StoreAt, Base, Offset;
    StorePairAt(n, m, a, Base(n, a), Offset(n, a), Base(n, a + n - 1), Offset(n, a + n - 1), r);
  }

  lemma CellWhole(d: Bytes, r: Bytes)
    requires |d| == |r| > 0
    ensures Loaded(Left, r, d, 0) == d && Loaded(Right, r, d, |d| - 1) == d
  {}

  lemma LoadedTwice(d: Bytes, e: Bytes, r: Bytes, k: nat)
    requires |d| == |e| == |r| && 0 < k < |d|
    ensures Loaded(Right, Loaded(Left, r, d, k), e, k - 1) == d[k..] + e[..k]
    ensures Loaded(Left, Loaded(Right, r, e, k - 1), d, k) == d[k..] + e[..k]
  {}

  lemma CellsJoin(n: nat, m: Bytes, b: nat, k: nat)
    requires k < n && b + n + n <= |m|
    ensures m[b..b + n][k..] + m[b + n..b + n + n][..k] == m[b + k..b + k + n]
  {
    SliceTail(m, b, k, n);
    SliceHead(m, b + n, k, n);
    SlicesJoin(m, b + k, b + n, b + n + k);
  }

  lemma SlicesJoin(m: Bytes, i: nat, j: nat, l: nat)
    requires i <= j <= l <= |m|
    ensures m[i..j] + m[j..l] == m[i..l]
  {}

  /** A left load at `a` and a right load at `a + n - 1`, in either order, fetch the
      `n` bytes at `a`, whatever the register held. */
  lemma LoadPair(n: nat, m: Bytes, a: nat, r: Bytes)
    requires (n == 4 || n == 8) && |r| == n && InMemory(n, m, a) && InMemory(n, m, a + n - 1)
    ensures a + n <= |m|
    ensures Load(Right, n, m, a + n - 1, Load(Left, n, m, a, r)) == m[a..a + n]
    ensures Load(Left, n, m, a, Load(Right, n, m, a + n - 1, r)) == m[a..a + n]
  {
    LastByte(n, a);
    CellOf(n, a);
    hide Base, Offset, Loaded;
    var b, k := Base(n, a), Offset(n, a);
    if k == 0 {
      CellWhole(m[a..a + n], r);
      CellWhole(m[a..a + n], m[a..a + n]);
    } else {
      LoadedTwice(m[b..b + n], m[b + n..b + n + n], r, k);
      CellsJoin(n, m, b, k);
    }
  }

  /** What a store pair stored, a load pair fetches, at any alignment. */
  lemma PairsRoundTrip(n: nat, m: Bytes, a: nat, r: Bytes, q: Bytes)
    requires (n == 4 || n == 8) && |r| == n && |q| == n && InMemory(n, m, a) && InMemory(n, m, a + n - 1)
    ensures
      var m' := Store(Right, n, Store(Left, n, m, a, r), a + n - 1, r);
      Load(Right, n, m', a + n - 1, Load(Left, n, m', a, q)) == r
  {
    StorePair(n, m, a, r);
    LoadPair(n, Patch(m, a, r), a, q);
    hide Store, Load;
    assert Patch(m, a, r)[a..a + n] == r;
  }
}
