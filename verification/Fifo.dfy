/** The single-producer single-consumer ring buffer: its arithmetic, and every
    interleaving of a producer and a consumer that copy byte by byte. */
module Fifo {

  type byte = bv8

  type Bytes = seq<byte>

  // ----- Powers of two, masks -----

  function Pow2(k: nat): (p: nat)
    ensures p > 0
  {
    if k == 0 then 1 else 2 * Pow2(k - 1)
  }

  const TOP: nat := 0x8000_0000

  /** Leading zeros of a 32-bit value. */
  function Clz(v: nat): (z: nat)
    requires 0 < v
    decreases if v < TOP then TOP - v else 0
  {
    if v >= TOP then 0 else 1 + Clz(2 * v)
  }

  lemma {:induction false} ClzBounds(v: nat)
    requires 0 < v < 2 * TOP
    ensures v * Pow2(Clz(v)) < 2 * TOP && TOP <= v * Pow2(Clz(v))
    decreases if v < TOP then TOP - v else 0
  {
    if v < TOP {
      ClzBounds(2 * v);
      var p := Pow2(Clz(2 * v));
      assert Pow2(Clz(v)) == 2 * p;
      assert v * (2 * p) == 2 * v * p;
    } else {
      assert Pow2(0) == 1;
    }
  }

  lemma {:induction false} Pow2Adds(i: nat, j: nat)
    ensures Pow2(i + j) == Pow2(i) * Pow2(j)
  {
    if i > 0 {
      Pow2Adds(i - 1, j);
      assert 2 * (Pow2(i - 1) * Pow2(j)) == 2 * Pow2(i - 1) * Pow2(j);
    }
  }

  lemma {:induction false} Pow2Grows(i: nat, j: nat)
    requires i <= j
    ensures Pow2(i) <= Pow2(j)
  {
    if i < j {
      Pow2Grows(i, j - 1);
    }
  }

  lemma Pow2Top()
    ensures Pow2(31) == TOP && Pow2(32) == 2 * TOP
  {
    assert Pow2(8) == 256;
    Pow2Adds(8, 8);
    Pow2Adds(16, 8);
    Pow2Adds(24, 7);
    assert Pow2(7) == 128;
  }

  lemma Times(a: nat, b: nat, c: nat)
    ensures a <= b ==> a * c <= b * c
    ensures a < b && c > 0 ==> a * c < b * c
  {
    if a <= b {
      assert b * c == a * c + (b - a) * c;
    }
  }

  lemma Scaled(v: nat, p: nat, z: nat, t: nat)
    requires z > 0 && p * z == 2 * t
    ensures v * z < 2 * t ==> v < p
    ensures t <= v * z ==> p <= 2 * v
  {
    Times(p, v, z);
    Times(2 * v, p, z);
    assert 2 * (v * z) == 2 * v * z;
  }

  lemma ClzAtMost(v: nat)
    requires 0 < v < 2 * TOP
    ensures Clz(v) <= 31
  {
    ClzBounds(v);
    Pow2Top();
    Times(1, v, Pow2(Clz(v)));
    if Clz(v) >= 32 {
      Pow2Grows(32, Clz(v));
    }
  }

  /** The rounding `fifo_create` uses. Above 2^31 the source shifts a 32-bit one by 32. */
  function Npow2(x: nat): nat
    requires x <= TOP
  {
    if x <= 1 then 1
    else
      ClzAtMost(x - 1);
      Pow2(32 - Clz(x - 1))
  }

  /** `Npow2` is the least power of two not below its argument. */
  lemma Npow2IsLeast(x: nat, k: nat)
    requires x <= TOP
    ensures x <= Npow2(x) <= TOP
    ensures exists j: nat :: j <= 31 && Npow2(x) == Pow2(j)
    ensures x <= Pow2(k) <==> Npow2(x) <= Pow2(k)
  {
    Pow2Top();
    if x <= 1 {
      assert Pow2(0) == 1;
    } else {
      var v, z := x - 1, Clz(x - 1);
      ClzBounds(v);
      ClzAtMost(v);
      Pow2Adds(32 - z, z);
      Scaled(v, Pow2(32 - z), Pow2(z), TOP);
      assert Pow2(0) == 1;
      assert z > 0;
      Pow2Grows(32 - z, 31);
      if x <= Pow2(k) {
        if k < 32 - z {
          Pow2Grows(k, 31 - z);
        } else {
          Pow2Grows(32 - z, k);
        }
      }
    }
  }

  /** Bitwise and, bit by bit. */
  function And(a: nat, b: nat): nat {
    if a == 0 || b == 0 then 0 else 2 * And(a / 2, b / 2) + (if a % 2 == 1 && b % 2 == 1 then 1 else 0)
  }

  /** Masking with one less than a power of two drops its multiples. */
  lemma {:induction false} AndPeriod(a: nat, m: nat, k: nat)
    requires a < Pow2(k)
    ensures And(a + m * Pow2(k), Pow2(k) - 1) == a
    decreases k
  {
    hide And;
    if k == 0 {
      AndZero(a + m * Pow2(k));
    } else {
      var p := Pow2(k - 1);
      AndPeriod(a / 2, m, k - 1);
      Doubled(m, p);
      Halved(a, m * p, p);
      AndStep(a + m * Pow2(k), Pow2(k) - 1);
    }
  }

  lemma AndZero(a: nat)
    ensures And(a, 0) == 0 && Pow2(0) == 1
  {}

  lemma Doubled(m: nat, p: nat)
    ensures m * (2 * p) == 2 * (m * p)
  {}

  lemma Halved(a: nat, q: nat, p: nat)
    requires p > 0
    ensures (a + 2 * q) / 2 == a / 2 + q && (a + 2 * q) % 2 == a % 2
    ensures (2 * p - 1) / 2 == p - 1 && (2 * p - 1) % 2 == 1
  {}

  lemma AndStep(a: nat, b: nat)
    ensures And(a, b) == 2 * And(a / 2, b / 2) + (if a % 2 == 1 && b % 2 == 1 then 1 else 0)
  {
    assert And(0, b / 2) == 0 && And(a / 2, 0) == 0;
  }

  /** A C `int`, anded with a mask: negative values are in two's complement. */
  function Masked(x: int, mask: nat): nat
    requires 0 <= x + TOP && x < 2 * TOP
  {
    And(if x < 0 then x + 2 * TOP else x, mask)
  }

  /** The position `x` names in a ring of `size` places. */
  function Wrap(x: int, size: nat): int { if x < 0 then x + size else if x < size then x else x - size }

  lemma OneLess(q: nat, p: nat)
    requires q > 0
    ensures (q - 1) * p == q * p - p && 1 * p == p && 0 * p == 0
  {}

  /** For a power-of-two ring, masking wraps. */
  lemma MaskWraps(x: int, k: nat)
    requires k <= 31 && 0 <= x + Pow2(k) && x < 2 * Pow2(k)
    ensures 0 <= x + TOP && x < 2 * TOP
    ensures Masked(x, Pow2(k) - 1) == Wrap(x, Pow2(k))
  {
    Pow2Top();
    Pow2Grows(k, 31);
    hide And, Pow2;
    if x < 0 {
      MaskNegative(x, k);
    } else if x < Pow2(k) {
      OneLess(1, Pow2(k));
      AndPeriod(x, 0, k);
    } else {
      OneLess(1, Pow2(k));
      AndPeriod(x - Pow2(k), 1, k);
    }
  }

  lemma MaskNegative(x: int, k: nat)
    requires k <= 31 && x < 0 <= x + Pow2(k)
    ensures 0 <= x + 2 * TOP && And(x + 2 * TOP, Pow2(k) - 1) == x + Pow2(k)
  {
    Pow2Top();
    Pow2Adds(32 - k, k);
    OneLess(Pow2(32 - k), Pow2(k));
    MaskBelow(x, k, Pow2(32 - k) - 1);
  }

  lemma MaskBelow(x: int, k: nat, m: nat)
    requires x < 0 <= x + Pow2(k) && m * Pow2(k) == 2 * TOP - Pow2(k)
    ensures 0 <= x + 2 * TOP && And(x + 2 * TOP, Pow2(k) - 1) == x + Pow2(k)
  {
    hide *;
    AndPeriod(x + Pow2(k), m, k);
  }
}
