/** Polynomials over the two-element field as sets of exponents, division by a fixed
    polynomial bit by bit, and what the remainder detects. */
module Gf2 {

  type Poly = set<nat>

  type Bits = seq<bool>

  function Add(a: Poly, b: Poly): Poly { (a - b) + (b - a) }

  /** Multiplication by `x`. */
  function Shift(a: Poly): (r: Poly)
    ensures forall i: nat :: i in r <==> i > 0 && i - 1 in a
  {
    set i: nat | i in a :: i + 1
  }

  function Bit(b: bool): Poly { if b then {0} else {} }

  /** The polynomial whose coefficients are the bits, the first bit the highest. */
  function Val(m: Bits): (p: Poly)
    ensures forall i :: i in p ==> i < |m|
  {
    if m == [] then {} else Add(Shift(Val(m[..|m| - 1])), Bit(m[|m| - 1]))
  }

  lemma {:induction false} ValAt(m: Bits, i: nat)
    ensures i in Val(m) <==> i < |m| && m[|m| - 1 - i]
    decreases |m|
  {
    if m != [] && i > 0 {
      ValAt(m[..|m| - 1], i - 1);
    }
  }

  function Scale(b: bool, p: Poly): Poly { if b then p else {} }

  /** The product of the polynomial of `q` and `p`. */
  function Mul(q: Bits, p: Poly): Poly {
    if q == [] then {} else Add(Shift(Mul(q[..|q| - 1], p)), Scale(q[|q| - 1], p))
  }

  predicate Below(p: Poly, n: nat) { forall i :: i in p ==> i < n }

  /** `p` has degree `n` and constant term one. */
  predicate Divisor(p: Poly, n: nat) { n > 0 && n in p && 0 in p && Below(p, n + 1) }

  lemma AddLaws(a: Poly, b: Poly, c: Poly)
    ensures Add(Add(a, b), c) == Add(a, Add(b, c))
    ensures Add(a, b) == Add(b, a)
    ensures Add(a, a) == {} && Add(a, {}) == a
  {}

  lemma ShiftAdd(a: Poly, b: Poly)
    ensures Shift(Add(a, b)) == Add(Shift(a), Shift(b))
  {}

  lemma ShiftInjective(a: Poly, b: Poly)
    requires Shift(a) == Shift(b)
    ensures a == b
  {
    forall i: nat ensures i in a <==> i in b {
      assert i + 1 in Shift(a) <==> i in a;
      assert i + 1 in Shift(b) <==> i in b;
    }
  }

  lemma ShiftBelow(a: Poly, n: nat)
    requires Below(a, n)
    ensures Below(Shift(a), n + 1)
  {}

  /** A binary operation with its terms rearranged. */
  lemma AddSwap(a: Poly, b: Poly, c: Poly, d: Poly)
    ensures Add(Add(a, b), Add(c, d)) == Add(Add(a, c), Add(b, d))
  {}

  // ----- Division, one bit at a time -----

  /** One step: the register takes a bit in at the bottom and is reduced. */
  function Feed(p: Poly, n: nat, r: Poly, b: bool): Poly {
    var s := Add(Shift(r), Bit(b));
    if n in s then Add(s, p) else s
  }

  function Run(p: Poly, n: nat, r: Poly, m: Bits): Poly {
    if m == [] then r else Feed(p, n, Run(p, n, r, m[..|m| - 1]), m[|m| - 1])
  }

  lemma FeedBelow(p: Poly, n: nat, r: Poly, b: bool)
    requires Divisor(p, n) && Below(r, n)
    ensures Below(Feed(p, n, r, b), n)
  {
    ShiftBelow(r, n);
  }

  lemma {:induction false} RunBelow(p: Poly, n: nat, r: Poly, m: Bits)
    requires Divisor(p, n) && Below(r, n)
    ensures Below(Run(p, n, r, m), n)
  {
    if m != [] {
      RunBelow(p, n, r, m[..|m| - 1]);
      FeedBelow(p, n, Run(p, n, r, m[..|m| - 1]), m[|m| - 1]);
    }
  }

  lemma {:induction false} RunSplit(p: Poly, n: nat, r: Poly, a: Bits, b: Bits)
    ensures Run(p, n, r, a + b) == Run(p, n, Run(p, n, r, a), b)
    decreases |b|
  {
    hide Feed;
    if b == [] {
      assert a + b == a;
    } else {
      assert (a + b)[..|a + b| - 1] == a + b[..|b| - 1];
      RunSplit(p, n, r, a, b[..|b| - 1]);
    }
  }

  /** The bits of the quotient: whether each step reduced. */
  function Quotient(p: Poly, n: nat, m: Bits): (q: Bits)
    ensures |q| == |m|
  {
    if m == [] then []
    else
      var r := Run(p, n, {}, m[..|m| - 1]);
      Quotient(p, n, m[..|m| - 1]) + [n in Add(Shift(r), Bit(m[|m| - 1]))]
  }

  /** Division with remainder: message = quotient * divisor + register. */
  lemma {:induction false} Divides(p: Poly, n: nat, m: Bits)
    ensures Val(m) == Add(Mul(Quotient(p, n, m), p), Run(p, n, {}, m))
  {
    if m != [] {
      var m0, b := m[..|m| - 1], m[|m| - 1];
      Divides(p, n, m0);
      var q, r := Mul(Quotient(p, n, m0), p), Run(p, n, {}, m0);
      var c := n in Add(Shift(r), Bit(b));
      assert Quotient(p, n, m)[..|m| - 1] == Quotient(p, n, m0);
      ShiftAdd(q, r);
      hide Shift, Val, Run, Mul, Quotient;
      assert Val(m) == Add(Add(Shift(q), Shift(r)), Bit(b)) by {
        OneMore(m);
      }
      assert Mul(Quotient(p, n, m), p) == Add(Shift(q), Scale(c, p)) by {
        OneMoreFactor(Quotient(p, n, m), p);
      }
      assert Run(p, n, {}, m) == Add(Add(Shift(r), Bit(b)), Scale(c, p)) by {
        OneMoreStep(p, n, {}, m);
      }
      Rearranged(Shift(q), Shift(r), Bit(b), Scale(c, p));
    }
  }

  lemma OneMore(m: Bits)
    requires m != []
    ensures Val(m) == Add(Shift(Val(m[..|m| - 1])), Bit(m[|m| - 1]))
  {}

  lemma OneMoreFactor(q: Bits, p: Poly)
    requires q != []
    ensures Mul(q, p) == Add(Shift(Mul(q[..|q| - 1], p)), Scale(q[|q| - 1], p))
  {}

  lemma OneMoreStep(p: Poly, n: nat, r: Poly, m: Bits)
    requires m != []
    ensures
      var s := Add(Shift(Run(p, n, r, m[..|m| - 1])), Bit(m[|m| - 1]));
      Run(p, n, r, m) == Add(s, Scale(n in s, p))
  {}

  lemma Rearranged(q: Poly, r: Poly, b: Poly, p: Poly)
    ensures Add(Add(q, r), b) == Add(Add(q, p), Add(Add(r, b), p))
  {}

  // ----- The remainder is unique -----

  /** `r` is what is left of the message after some multiple of the divisor. */
  ghost predicate IsRemainder(p: Poly, n: nat, m: Bits, r: Poly) {
    Below(r, n) && exists q: Bits :: Val(m) == Add(Mul(q, p), r)
  }

  function Xor(a: Bits, b: Bits): (c: Bits)
    requires |a| == |b|
    ensures |c| == |a|
  {
    seq(|a|, i requires 0 <= i < |a| => a[i] != b[i])
  }

  lemma {:induction false} MulXor(a: Bits, b: Bits, p: Poly)
    requires |a| == |b|
    ensures Mul(Xor(a, b), p) == Add(Mul(a, p), Mul(b, p))
    decreases |a|
  {
    if a != [] {
      var k := |a| - 1;
      MulXor(a[..k], b[..k], p);
      assert Xor(a, b)[..k] == Xor(a[..k], b[..k]);
      OneMoreFactor(a, p);
      OneMoreFactor(b, p);
      OneMoreFactor(Xor(a, b), p);
      var u, v := Mul(a[..k], p), Mul(b[..k], p);
      ShiftAdd(u, v);
      assert Scale(a[k] != b[k], p) == Add(Scale(a[k], p), Scale(b[k], p));
      hide Mul, Shift, Add;
      AddSwap(Shift(u), Scale(a[k], p), Shift(v), Scale(b[k], p));
    }
  }

  function Zeros(k: nat): (z: Bits)
    ensures |z| == k
  {
    seq(k, _ => false)
  }

  lemma {:induction false} MulPadded(k: nat, q: Bits, p: Poly)
    ensures Mul(Zeros(k) + q, p) == Mul(q, p)
    decreases k + |q|
  {
    if q != [] {
      assert (Zeros(k) + q)[..k + |q| - 1] == Zeros(k) + q[..|q| - 1];
      MulPadded(k, q[..|q| - 1], p);
    } else if k > 0 {
      assert (Zeros(k) + q)[..k - 1] == Zeros(k - 1) + q;
      MulPadded(k - 1, q, p);
    } else {
      assert Zeros(0) + q == q;
    }
  }

  /** A multiple of the divisor of degree below the divisor's is zero. */
  lemma {:induction false} TopOfProduct(q: Bits, p: Poly, n: nat)
    requires Divisor(p, n)
    ensures Below(Mul(q, p), n + |q|)
    ensures |q| > 0 && q[0] ==> n + |q| - 1 in Mul(q, p)
  {
    if q != [] {
      var k := |q| - 1;
      TopOfProduct(q[..k], p, n);
      ShiftBelow(Mul(q[..k], p), n + k);
      if k > 0 && q[0] {
        assert n + k - 1 in Mul(q[..k], p);
        assert n + k in Shift(Mul(q[..k], p));
      }
    }
  }

  lemma {:induction false} SmallMultipleIsZero(q: Bits, p: Poly, n: nat)
    requires Divisor(p, n) && Below(Mul(q, p), n)
    ensures Mul(q, p) == {}
    decreases |q|
  {
    if q != [] {
      TopOfProduct(q, p, n);
      assert !q[0];
      assert q == Zeros(1) + q[1..];
      MulPadded(1, q[1..], p);
      SmallMultipleIsZero(q[1..], p, n);
    }
  }

  lemma RemaindersAgree(p: Poly, n: nat, q1: Bits, r1: Poly, q2: Bits, r2: Poly)
    requires Divisor(p, n) && Below(r1, n) && Below(r2, n)
    requires Add(Mul(q1, p), r1) == Add(Mul(q2, p), r2)
    ensures r1 == r2
  {
    var c, d := Zeros(|q2|) + q1, Zeros(|q1|) + q2;
    MulPadded(|q2|, q1, p);
    MulPadded(|q1|, q2, p);
    MulXor(c, d, p);
    Cancel(Mul(c, p), r1, Mul(d, p), r2);
    assert Below(Add(r1, r2), n);
    SmallMultipleIsZero(Xor(c, d), p, n);
    CancelZero(r1, r2);
  }

  lemma Cancel(a: Poly, r: Poly, b: Poly, s: Poly)
    requires Add(a, r) == Add(b, s)
    ensures Add(a, b) == Add(r, s)
  {
    forall i: nat ensures i in Add(a, b) <==> i in Add(r, s) {
      assert i in Add(a, r) <==> i in Add(b, s);
    }
  }

  lemma CancelZero(r: Poly, s: Poly)
    requires Add(r, s) == {}
    ensures r == s
  {
    forall i: nat ensures i in r <==> i in s {
      assert i !in Add(r, s);
    }
  }

  /** The register computes the remainder, and nothing else is the remainder. */
  lemma RunIsTheRemainder(p: Poly, n: nat, m: Bits, r: Poly)
    requires Divisor(p, n)
    ensures IsRemainder(p, n, m, r) <==> r == Run(p, n, {}, m)
  {
    Divides(p, n, m);
    RunBelow(p, n, {}, m);
    if IsRemainder(p, n, m, r) {
      var q: Bits :| Val(m) == Add(Mul(q, p), r);
      RemaindersAgree(p, n, q, r, Quotient(p, n, m), Run(p, n, {}, m));
    }
  }

  lemma FeedXor(p: Poly, n: nat, a: Poly, b: Poly, x: bool, y: bool)
    ensures Feed(p, n, Add(a, b), x != y) == Add(Feed(p, n, a, x), Feed(p, n, b, y))
  {
    ShiftAdd(a, b);
    var u, v := Add(Shift(a), Bit(x)), Add(Shift(b), Bit(y));
    assert Bit(x != y) == Add(Bit(x), Bit(y));
    AddSwap(Shift(a), Shift(b), Bit(x), Bit(y));
    assert Scale(n in Add(u, v), p) == Add(Scale(n in u, p), Scale(n in v, p));
    AddSwap(u, Scale(n in u, p), v, Scale(n in v, p));
    FeedSum(p, n, a, x);
    FeedSum(p, n, b, y);
    FeedSum(p, n, Add(a, b), x != y);
    hide Shift, Add, Feed, Bit;
  }

  lemma FeedSum(p: Poly, n: nat, r: Poly, b: bool)
    ensures var s := Add(Shift(r), Bit(b)); Feed(p, n, r, b) == Add(s, Scale(n in s, p))
  {}

  /** The register of a sum of messages is the sum of their registers. */
  lemma {:induction false} RunXor(p: Poly, n: nat, r: Poly, s: Poly, m: Bits, w: Bits)
    requires |m| == |w|
    ensures Run(p, n, Add(r, s), Xor(m, w)) == Add(Run(p, n, r, m), Run(p, n, s, w))
    decreases |m|
  {
    if m != [] {
      var k := |m| - 1;
      RunXor(p, n, r, s, m[..k], w[..k]);
      assert Xor(m, w)[..k] == Xor(m[..k], w[..k]);
      FeedXor(p, n, Run(p, n, r, m[..k]), Run(p, n, s, w[..k]), m[k], w[k]);
      hide Feed, Add;
    }
  }

  // ----- Appending the remainder; detecting a changed run of bits -----

  /** Up to `n` bits fed in at the bottom add themselves to what zeros would leave. */
  lemma {:induction false} LastBits(p: Poly, n: nat, r: Poly, v: Bits)
    requires Divisor(p, n) && Below(r, n) && |v| <= n
    ensures Run(p, n, r, v) == Add(Run(p, n, r, Zeros(|v|)), Val(v))
    decreases |v|
  {
    if v == [] {
      AddLaws(r, {}, {});
    } else {
      var k := |v| - 1;
      var v0 := v[..k];
      LastBits(p, n, r, v0);
      assert Zeros(|v|)[..k] == Zeros(k);
      var z := Run(p, n, r, Zeros(k));
      OneMoreStep(p, n, r, v);
      OneMoreStep(p, n, r, Zeros(|v|));
      OneMore(v);
      hide Run, Val, Feed;
      LastBit(p, n, z, Val(v0), v[k]);
    }
  }

  lemma LastBit(p: Poly, n: nat, z: Poly, w: Poly, b: bool)
    requires n > 0 && Below(w, n - 1)
    ensures
      var s, t := Add(Shift(Add(z, w)), Bit(b)), Add(Shift(z), Bit(false));
      Add(s, Scale(n in s, p)) == Add(Add(t, Scale(n in t, p)), Add(Shift(w), Bit(b)))
  {
    ShiftAdd(z, w);
    ShiftBelow(w, n - 1);
    var s, t := Add(Shift(Add(z, w)), Bit(b)), Add(Shift(z), Bit(false));
    assert n in s <==> n in t;
    hide Shift;
    AddSwap(Shift(z), Scale(n in t, p), Shift(w), Bit(b));
    assert t == Shift(z);
  }

  lemma FeedInjective(p: Poly, n: nat, r: Poly, s: Poly, b: bool)
    requires Divisor(p, n) && Below(r, n) && Below(s, n) && Feed(p, n, r, b) == Feed(p, n, s, b)
    ensures r == s
  {
    var u, v := Add(Shift(r), Bit(b)), Add(Shift(s), Bit(b));
    assert 0 in u <==> b;
    assert 0 in v <==> b;
    assert n in u <==> n in v by {
      assert 0 in Feed(p, n, r, b) <==> 0 in Feed(p, n, s, b);
    }
    hide Shift;
    assert u == v by {
      AddBack(u, v, p);
    }
    AddBack(Shift(r), Shift(s), Bit(b));
    ShiftInjective(r, s);
  }

  lemma AddBack(a: Poly, b: Poly, c: Poly)
    ensures Add(a, c) == Add(b, c) <==> a == b
  {
    if Add(a, c) == Add(b, c) {
      forall i: nat ensures i in a <==> i in b {
        assert i in Add(a, c) <==> i in Add(b, c);
      }
    }
  }

  lemma {:induction false} RunInjective(p: Poly, n: nat, r: Poly, s: Poly, m: Bits)
    requires Divisor(p, n) && Below(r, n) && Below(s, n) && Run(p, n, r, m) == Run(p, n, s, m)
    ensures r == s
    decreases |m|
  {
    if m != [] {
      var m0, b := m[..|m| - 1], m[|m| - 1];
      RunBelow(p, n, r, m0);
      RunBelow(p, n, s, m0);
      FeedInjective(p, n, Run(p, n, r, m0), Run(p, n, s, m0), b);
      RunInjective(p, n, r, s, m0);
    }
  }

  lemma {:induction false} ValInjective(v: Bits, w: Bits)
    requires |v| == |w| && Val(v) == Val(w)
    ensures v == w
    decreases |v|
  {
    if v != [] {
      var k := |v| - 1;
      assert 0 in Val(v) <==> v[k];
      assert 0 in Val(w) <==> w[k];
      AddBack(Shift(Val(v[..k])), Shift(Val(w[..k])), Bit(v[k]));
      ShiftInjective(Val(v[..k]), Val(w[..k]));
      ValInjective(v[..k], w[..k]);
      assert v == v[..k] + [v[k]] && w == w[..k] + [w[k]];
    }
  }

  /** Two messages that differ only within `n` adjacent bits have different
      remainders, whatever the register held before them. */
  lemma BurstIsDetected(p: Poly, n: nat, r: Poly, head: Bits, v: Bits, w: Bits, tail: Bits)
    requires Divisor(p, n) && Below(r, n) && |v| == |w| <= n
    ensures Run(p, n, r, head + v + tail) == Run(p, n, r, head + w + tail) <==> v == w
  {
    var a := Run(p, n, r, head);
    RunBelow(p, n, r, head);
    RunSplit(p, n, r, head + v, tail);
    RunSplit(p, n, r, head, v);
    RunSplit(p, n, r, head + w, tail);
    RunSplit(p, n, r, head, w);
    if Run(p, n, r, head + v + tail) == Run(p, n, r, head + w + tail) {
      RunBelow(p, n, a, v);
      RunBelow(p, n, a, w);
      RunInjective(p, n, Run(p, n, a, v), Run(p, n, a, w), tail);
      LastBits(p, n, a, v);
      LastBits(p, n, a, w);
      AddLaws(Run(p, n, a, Zeros(|v|)), Val(v), {});
      AddLaws(Run(p, n, a, Zeros(|v|)), Val(w), {});
      AddBack(Val(v), Val(w), Run(p, n, a, Zeros(|v|)));
      ValInjective(v, w);
    }
  }

  /** Feeding the remainder's own bits instead of `n` zeros leaves zero. */
  lemma RemainderAppended(p: Poly, n: nat, m: Bits, v: Bits)
    requires Divisor(p, n) && |v| == n
    ensures Run(p, n, {}, m + v) == {} <==> Val(v) == Run(p, n, {}, m + Zeros(n))
  {
    var a := Run(p, n, {}, m);
    RunBelow(p, n, {}, m);
    RunSplit(p, n, {}, m, v);
    RunSplit(p, n, {}, m, Zeros(n));
    LastBits(p, n, a, v);
    var z := Run(p, n, a, Zeros(n));
    AddLaws(z, z, z);
    AddBack(z, Val(v), Val(v));
    AddLaws(Val(v), Val(v), Val(v));
  }
}
