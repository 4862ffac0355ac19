/** Division with the message bits entering at the top of the register, as reflected
    CRCs do, related to plain division. */
module Gf2Top {
  import opened Gf2

  function Top(n: nat, b: bool): Poly
    requires n > 0
  {
    if b then {n - 1} else {}
  }

  function FeedTop(p: Poly, n: nat, r: Poly, b: bool): Poly
    requires n > 0
  {
    Feed(p, n, Add(r, Top(n, b)), false)
  }

  function RunTop(p: Poly, n: nat, r: Poly, m: Bits): Poly
    requires n > 0
  {
    if m == [] then r else FeedTop(p, n, RunTop(p, n, r, m[..|m| - 1]), m[|m| - 1])
  }

  lemma FeedLinear(p: Poly, n: nat, r: Poly, s: Poly)
    ensures Feed(p, n, Add(r, s), false) == Add(Feed(p, n, r, false), Feed(p, n, s, false))
  {
    ShiftAdd(r, s);
    var u, v := Shift(r), Shift(s);
    assert Add(u, Bit(false)) == u && Add(v, Bit(false)) == v && Add(Add(u, v), Bit(false)) == Add(u, v);
    assert Scale(n in Add(u, v), p) == Add(Scale(n in u, p), Scale(n in v, p));
    hide Shift;
    AddSwap(u, Scale(n in u, p), v, Scale(n in v, p));
    FeedForm(p, n, r);
    FeedForm(p, n, s);
    FeedForm(p, n, Add(r, s));
  }

  lemma FeedForm(p: Poly, n: nat, r: Poly)
    ensures Feed(p, n, r, false) == Add(Shift(r), Scale(n in Shift(r), p))
  {
    assert Add(Shift(r), Bit(false)) == Shift(r);
  }

  lemma {:induction false} RunTopLinear(p: Poly, n: nat, r: Poly, s: Poly, m: Bits, w: Bits)
    requires n > 0 && |m| == |w|
    ensures RunTop(p, n, Add(r, s), Xor(m, w)) == Add(RunTop(p, n, r, m), RunTop(p, n, s, w))
    decreases |m|
  {
    hide FeedTop, Add;
    if m != [] {
      var k := |m| - 1;
      XorFront(m, w, k);
      hide Xor, RunTop;
      RunTopLinear(p, n, r, s, m[..k], w[..k]);
      LastOfTop(p, n, r, m);
      LastOfTop(p, n, s, w);
      LastOfTop(p, n, Add(r, s), Xor(m, w));
      FeedTopLinear(p, n, RunTop(p, n, r, m[..k]), RunTop(p, n, s, w[..k]), m[k], w[k]);
    } else {
      assert Xor(m, w) == [];
    }
  }

  lemma XorFront(m: Bits, w: Bits, k: nat)
    requires |m| == |w| && k < |m|
    ensures Xor(m, w)[..k] == Xor(m[..k], w[..k]) && Xor(m, w)[k] == (m[k] != w[k])
  {}

  lemma LastOfTop(p: Poly, n: nat, r: Poly, m: Bits)
    requires n > 0 && m != []
    ensures RunTop(p, n, r, m) == FeedTop(p, n, RunTop(p, n, r, m[..|m| - 1]), m[|m| - 1])
  {}

  lemma FeedTopLinear(p: Poly, n: nat, a: Poly, b: Poly, x: bool, y: bool)
    requires n > 0
    ensures FeedTop(p, n, Add(a, b), x != y) == Add(FeedTop(p, n, a, x), FeedTop(p, n, b, y))
  {
    assert Top(n, x != y) == Add(Top(n, x), Top(n, y));
    hide Feed, Add, Top;
    AddSwap(a, b, Top(n, x), Top(n, y));
    FeedLinear(p, n, Add(a, Top(n, x)), Add(b, Top(n, y)));
  }

  lemma {:induction false} RunTopSplit(p: Poly, n: nat, r: Poly, a: Bits, b: Bits)
    requires n > 0
    ensures RunTop(p, n, r, a + b) == RunTop(p, n, RunTop(p, n, r, a), b)
    decreases |b|
  {
    hide FeedTop;
    if b == [] {
      assert a + b == a;
    } else {
      assert (a + b)[..|a + b| - 1] == a + b[..|b| - 1];
      RunTopSplit(p, n, r, a, b[..|b| - 1]);
    }
  }

  lemma {:induction false} RunTopBelow(p: Poly, n: nat, r: Poly, m: Bits)
    requires Divisor(p, n) && Below(r, n)
    ensures Below(RunTop(p, n, r, m), n)
  {
    if m != [] {
      var k := |m| - 1;
      RunTopBelow(p, n, r, m[..k]);
      FeedBelow(p, n, Add(RunTop(p, n, r, m[..k]), Top(n, m[k])), false);
    }
  }

  // ----- Entering at the top is entering at the bottom and `n` zeros later -----

  /** Zeros move a one from the bottom to the top. */
  lemma {:induction false} OneRises(p: Poly, n: nat, k: nat)
    requires k < n
    ensures Run(p, n, {0}, Zeros(k)) == {k}
  {
    if k > 0 {
      OneRises(p, n, k - 1);
      assert Zeros(k)[..k - 1] == Zeros(k - 1);
      assert Shift({k - 1}) == {k};
      assert Add({k}, Bit(false)) == {k};
    }
  }

  lemma {:induction false} RunZerosLinear(p: Poly, n: nat, r: Poly, s: Poly, k: nat)
    ensures Run(p, n, Add(r, s), Zeros(k)) == Add(Run(p, n, r, Zeros(k)), Run(p, n, s, Zeros(k)))
  {
    if k > 0 {
      assert Zeros(k)[..k - 1] == Zeros(k - 1);
      RunZerosLinear(p, n, r, s, k - 1);
      FeedLinear(p, n, Run(p, n, r, Zeros(k - 1)), Run(p, n, s, Zeros(k - 1)));
      hide Feed, Add;
    }
  }

  lemma MoreZeros(p: Poly, n: nat, r: Poly, k: nat)
    ensures Run(p, n, r, Zeros(k + 1)) == Feed(p, n, Run(p, n, r, Zeros(k)), false)
    ensures Run(p, n, r, Zeros(k + 1)) == Run(p, n, Feed(p, n, r, false), Zeros(k))
  {
    assert Zeros(k + 1)[..k] == Zeros(k);
    assert Zeros(k + 1) == [false] + Zeros(k);
    RunSplit(p, n, r, [false], Zeros(k));
    assert Run(p, n, r, [false]) == Feed(p, n, r, false) by {
      OneBit(p, n, r, false);
    }
  }

  lemma OneBit(p: Poly, n: nat, r: Poly, b: bool)
    ensures Run(p, n, r, [b]) == Feed(p, n, r, b)
  {
    assert [b][..0] == [];
  }

  lemma FeedBit(p: Poly, n: nat, r: Poly, b: bool)
    requires Divisor(p, n) && Below(r, n)
    ensures Feed(p, n, r, b) == Add(Feed(p, n, r, false), Bit(b))
  {
    OneBit(p, n, r, b);
    OneBit(p, n, r, false);
    LastBits(p, n, r, [b]);
    assert Zeros(1) == [false];
    ValOne(b);
  }

  lemma ValOne(b: bool)
    ensures Val([b]) == Bit(b)
  {
    assert [b][..0] == [];
    assert Shift({}) == {};
  }

  lemma BitRises(p: Poly, n: nat, b: bool)
    requires n > 0
    ensures Run(p, n, Bit(b), Zeros(n)) == Feed(p, n, Top(n, b), false)
  {
    MoreZeros(p, n, Bit(b), n - 1);
    if b {
      OneRises(p, n, n - 1);
    } else {
      NothingRises(p, n, n - 1);
    }
  }

  lemma {:induction false} NothingRises(p: Poly, n: nat, k: nat)
    ensures Run(p, n, {}, Zeros(k)) == {}
  {
    if k > 0 {
      assert Zeros(k)[..k - 1] == Zeros(k - 1);
      NothingRises(p, n, k - 1);
      assert Shift({}) == {};
    }
  }

  lemma OneMoreTop(p: Poly, n: nat, t: Poly, b: bool)
    requires Divisor(p, n) && Below(t, n)
    ensures Run(p, n, Feed(p, n, t, b), Zeros(n)) == FeedTop(p, n, Run(p, n, t, Zeros(n)), b)
  {
    var z := Run(p, n, t, Zeros(n));
    FeedBit(p, n, t, b);
    RunZerosLinear(p, n, Feed(p, n, t, false), Bit(b), n);
    MoreZeros(p, n, t, n);
    BitRises(p, n, b);
    FeedLinear(p, n, z, Top(n, b));
    hide Run, Feed, Add, Top, Bit;
  }

  /** Bits entering at the top leave what the same bits followed by `n` zeros leave. */
  lemma {:induction false} TopIsAppended(p: Poly, n: nat, s: Poly, m: Bits)
    requires Divisor(p, n) && Below(s, n)
    ensures RunTop(p, n, Run(p, n, s, Zeros(n)), m) == Run(p, n, s, m + Zeros(n))
    decreases |m|
  {
    if m == [] {
      assert m + Zeros(n) == Zeros(n);
    } else {
      var m0, b := m[..|m| - 1], m[|m| - 1];
      TopIsAppended(p, n, s, m0);
      RunBelow(p, n, s, m0);
      var t := Run(p, n, s, m0);
      OneMoreTop(p, n, t, b);
      RunSplit(p, n, s, m0, Zeros(n));
      RunSplit(p, n, s, m, Zeros(n));
    }
  }

  // ----- A preset register -----

  lemma EmptyTop(p: Poly, n: nat, m: Bits)
    requires Divisor(p, n)
    ensures RunTop(p, n, {}, m) == Run(p, n, {}, m + Zeros(n))
  {
    NothingRises(p, n, n);
    TopIsAppended(p, n, {}, m);
  }

  /** Zeros enter at the top as they do at the bottom. */
  lemma {:induction false} ZerosAtTop(p: Poly, n: nat, r: Poly, k: nat)
    requires n > 0
    ensures RunTop(p, n, r, Zeros(k)) == Run(p, n, r, Zeros(k))
  {
    if k > 0 {
      assert Zeros(k)[..k - 1] == Zeros(k - 1);
      ZerosAtTop(p, n, r, k - 1);
      AddLaws(Run(p, n, r, Zeros(k - 1)), {}, {});
    }
  }

  /** Up to `n` bits fed to an empty register are its content. */
  lemma ShortIsItsValue(p: Poly, n: nat, v: Bits)
    requires Divisor(p, n) && |v| <= n
    ensures Run(p, n, {}, v) == Val(v)
  {
    LastBits(p, n, {}, v);
    NothingRises(p, n, |v|);
    AddLaws({}, Val(v), {});
    AddLaws(Val(v), {}, {});
  }

  /** A register preset to `v` leaves the remainder of the message followed by `n`
      zeros, with `v` added to its first bits. */
  lemma PresetIsAdded(p: Poly, n: nat, v: Bits, m: Bits)
    requires Divisor(p, n) && |v| == n
    ensures RunTop(p, n, Val(v), m) == Run(p, n, {}, Xor(m + Zeros(n), v + Zeros(|m|)))
  {
    var z := Zeros(|m|);
    assert Xor(m, z) == m;
    AddLaws({}, Val(v), {});
    AddLaws(Val(v), {}, {});
    AddLaws({}, {}, {});
    RunTopLinear(p, n, {}, Val(v), m, z);
    EmptyTop(p, n, m);
    ZerosAtTop(p, n, Val(v), |m|);
    ShortIsItsValue(p, n, v);
    RunSplit(p, n, {}, v, z);
    RunXor(p, n, {}, {}, m + Zeros(n), v + z);
    hide Run, RunTop, Val, Add;
  }

  // ----- Detection -----

  lemma {:induction false} RunTopInjective(p: Poly, n: nat, r: Poly, s: Poly, m: Bits)
    requires Divisor(p, n) && Below(r, n) && Below(s, n) && RunTop(p, n, r, m) == RunTop(p, n, s, m)
    ensures r == s
    decreases |m|
  {
    if m != [] {
      var m0, b := m[..|m| - 1], m[|m| - 1];
      RunTopBelow(p, n, r, m0);
      RunTopBelow(p, n, s, m0);
      var x, y := RunTop(p, n, r, m0), RunTop(p, n, s, m0);
      FeedInjective(p, n, Add(x, Top(n, b)), Add(y, Top(n, b)), false);
      AddBack(x, y, Top(n, b));
      RunTopInjective(p, n, r, s, m0);
    }
  }

  /** From one register, two strings of up to `n` bits leave the same only if equal. */
  lemma ShortStringsDiffer(p: Poly, n: nat, r: Poly, v: Bits, w: Bits)
    requires Divisor(p, n) && |v| == |w| <= n && RunTop(p, n, r, v) == RunTop(p, n, r, w)
    ensures v == w
  {
    var u := Xor(v, w);
    RunTopLinear(p, n, r, r, v, w);
    AddLaws(r, r, r);
    AddLaws(RunTop(p, n, r, v), {}, {});
    assert RunTop(p, n, {}, u) == {};
    EmptyTop(p, n, u);
    RunSplit(p, n, {}, u, Zeros(n));
    NothingRises(p, n, n);
    RunBelow(p, n, {}, u);
    RunInjective(p, n, Run(p, n, {}, u), {}, Zeros(n));
    LastBits(p, n, {}, u);
    NothingRises(p, n, |u|);
    AddLaws({}, Val(u), {});
    AddLaws(Val(u), {}, {});
    forall i | 0 <= i < |v| ensures v[i] == w[i] {
      ValAt(u, |u| - 1 - i);
    }
  }

  lemma TopBurstIsDetected(p: Poly, n: nat, r: Poly, head: Bits, v: Bits, w: Bits, tail: Bits)
    requires Divisor(p, n) && Below(r, n) && |v| == |w| <= n
    ensures RunTop(p, n, r, head + v + tail) == RunTop(p, n, r, head + w + tail) <==> v == w
  {
    var a := RunTop(p, n, r, head);
    RunTopBelow(p, n, r, head);
    RunTopSplit(p, n, r, head + v, tail);
    RunTopSplit(p, n, r, head, v);
    RunTopSplit(p, n, r, head + w, tail);
    RunTopSplit(p, n, r, head, w);
    if RunTop(p, n, r, head + v + tail) == RunTop(p, n, r, head + w + tail) {
      RunTopBelow(p, n, a, v);
      RunTopBelow(p, n, a, w);
      RunTopInjective(p, n, RunTop(p, n, a, v), RunTop(p, n, a, w), tail);
      ShortStringsDiffer(p, n, a, v, w);
    }
  }
}
