/**
 The amortised bound on how many input bytes the range decoder can consume
 (compat/xz_dec_lzma2.c, LZMA_IN_REQUIRED).

 Every decision shrinks `range` by a bounded factor and every byte read multiplies it by 256.
 `Room(range, a, d, n)` says that even after `a` further adaptive and `d` further direct
 decisions, each as unlucky as possible, `n` bytes are enough to keep `range` at RC_TOP_VALUE.
 */
module RangeBounds {

  const TOP: int := 0x100_0000            // RC_TOP_VALUE
  const RANGE_MIN: int := 31 * 0x2000     // the smallest range a decision can leave behind

  // Guaranteed shrink factors of one adaptive and of one direct decision taken at range >= TOP.
  const ALPHA: real := 253921.0 / 16777216.0
  const BETA: real := 16777215.0 / 33554432.0

  ghost function Pow(x: real, n: nat): real {
    if n == 0 then 1.0 else x * Pow(x, n - 1)
  }

  ghost function Shrink(a: nat, d: nat): real {
    Pow(ALPHA, a) * Pow(BETA, d)
  }

  ghost predicate Room(range: int, a: nat, d: nat, n: int) {
    n >= 0 && (range as real) * Shrink(a, d) * Pow(256.0, n) >= 16777216.0
  }

  lemma MulMono(x: real, y: real, z: real)
    requires x <= y && z >= 0.0
    ensures x * z <= y * z
  {
  }

  lemma PowFraction(x: real, n: nat)
    requires 0.0 < x <= 1.0
    ensures 0.0 < Pow(x, n) <= 1.0
  {
    if n > 0 {
      PowFraction(x, n - 1);
      FractionProduct(x, Pow(x, n - 1));
    }
  }

  lemma PowPositive(x: real, n: nat)
    requires 0.0 < x
    ensures 0.0 < Pow(x, n)
  {
  }

  lemma PowAdd(x: real, m: nat, n: nat)
    ensures Pow(x, m + n) == Pow(x, m) * Pow(x, n)
  {
    if m > 0 {
      PowAdd(x, m - 1, n);
    }
  }

  lemma FractionProduct(x: real, y: real)
    requires 0.0 < x <= 1.0 && 0.0 < y <= 1.0
    ensures 0.0 < x * y <= 1.0
  {
    MulMono(x, 1.0, y);
    assert x * y <= y;
  }

  lemma ShrinkFraction(a: nat, d: nat)
    ensures 0.0 < Shrink(a, d) <= 1.0
  {
    var x, y := Pow(ALPHA, a), Pow(BETA, d);
    PowFraction(ALPHA, a);
    PowFraction(BETA, d);
    FractionProduct(x, y);
    assert Shrink(a, d) == x * y;
  }

  lemma ShrinkStep(a: nat, d: nat)
    ensures Shrink(a + 1, d) == ALPHA * Shrink(a, d)
    ensures Shrink(a, d + 1) == BETA * Shrink(a, d)
  {
    var x, y := Pow(ALPHA, a), Pow(BETA, d);
    assert (ALPHA * x) * y == ALPHA * (x * y);
    assert x * (BETA * y) == BETA * (x * y);
  }

  /** Reading a byte when the range has fallen below TOP uses up one byte of room, and room
      guarantees that there is one. */
  lemma RoomNormalize(range: int, a: nat, d: nat, n: int)
    requires 0 <= range < TOP
    requires Room(range, a, d, n)
    ensures n >= 1 && Room(range * 256, a, d, n - 1)
  {
    ShrinkFraction(a, d);
    if n == 0 {
      MulMono(Shrink(a, d), 1.0, range as real);
      assert false;
    }
    var s := Shrink(a, d);
    var p := Pow(256.0, n - 1);
    assert (range as real) * s * (256.0 * p) == ((range * 256) as real) * s * p;
  }

  lemma RoomScale(range: int, range': int, f: real, s: real, p: real)
    requires (range' as real) >= f * (range as real)
    requires s >= 0.0 && p >= 0.0
    ensures (range' as real) * s * p >= (range as real) * (f * s) * p
  {
    var r, r' := range as real, range' as real;
    MulMono(f * r, r', s);
    MulMono(f * r * s, r' * s, p);
    assert f * r * s == r * (f * s);
  }

  /** An adaptive decision leaves at least 31/2048 of the range, up to rounding. */
  lemma RoomAdaptive(range: int, range': int, a: nat, d: nat, n: int)
    requires TOP <= range && range' >= range / 2048 * 31
    requires a >= 1 && Room(range, a, d, n)
    ensures Room(range', a - 1, d, n)
  {
    ShrinkFraction(a - 1, d);
    PowPositive(256.0, n);
    assert (range' as real) >= ALPHA * (range as real);
    ShrinkStep(a - 1, d);
    RoomScale(range, range', ALPHA, Shrink(a - 1, d), Pow(256.0, n));
  }

  /** A direct decision halves the range, up to rounding. */
  lemma RoomDirect(range: int, range': int, a: nat, d: nat, n: int)
    requires TOP <= range && range' == range / 2
    requires d >= 1 && Room(range, a, d, n)
    ensures Room(range', a, d - 1, n)
  {
    ShrinkFraction(a, d - 1);
    PowPositive(256.0, n);
    assert (range' as real) >= BETA * (range as real);
    ShrinkStep(a, d - 1);
    RoomScale(range, range', BETA, Shrink(a, d - 1), Pow(256.0, n));
  }

  lemma ScaleUp(r: real, s: real, s': real, p: real)
    requires r >= 0.0 && p >= 0.0 && s <= s'
    ensures r * s * p <= r * s' * p
  {
    MulMono(s, s', r);
    MulMono(r * s, r * s', p);
  }

  /** Fewer decisions need less room. */
  lemma RoomWeaken(range: int, a: nat, d: nat, a': nat, d': nat, n: int)
    requires 0 <= range && a' <= a && d' <= d && Room(range, a, d, n)
    ensures Room(range, a', d', n)
    decreases a + d
  {
    PowPositive(256.0, n);
    if a' < a {
      ShrinkStep(a - 1, d);
      ShrinkFraction(a - 1, d);
      MulMono(ALPHA, 1.0, Shrink(a - 1, d));
      ScaleUp(range as real, Shrink(a, d), Shrink(a - 1, d), Pow(256.0, n));
      RoomWeaken(range, a - 1, d, a', d', n);
    } else if d' < d {
      ShrinkStep(a, d - 1);
      ShrinkFraction(a, d - 1);
      MulMono(BETA, 1.0, Shrink(a, d - 1));
      ScaleUp(range as real, Shrink(a, d), Shrink(a, d - 1), Pow(256.0, n));
      RoomWeaken(range, a, d - 1, a', d', n);
    }
  }

  /** 26 direct decisions outweigh one adaptive one. */
  lemma RoomTrade(range: int, a: nat, n: int)
    requires 0 <= range && Room(range, a, 26, n)
    ensures Room(range, a + 1, 0, n)
  {
    BetaPowerSmall();
    PowPositive(256.0, n);
    PowFraction(ALPHA, a);
    var x, b := Pow(ALPHA, a), Pow(BETA, 26);
    MulMono(b, ALPHA, x);
    assert Shrink(a, 26) == x * b && Shrink(a + 1, 0) == ALPHA * x;
    ScaleUp(range as real, Shrink(a, 26), Shrink(a + 1, 0), Pow(256.0, n));
  }

  lemma BetaPowerSmall()
    ensures Pow(BETA, 26) <= ALPHA
  {
    PowAdd(BETA, 8, 18);
    PowFraction(BETA, 18);
    PowFraction(BETA, 8);
    assert Pow(BETA, 1) == BETA;
    PowAdd(BETA, 4, 4);
    PowAdd(BETA, 2, 2);
    assert Pow(BETA, 2) == BETA * BETA;
    assert Pow(BETA, 8) <= ALPHA;
    MulMono(Pow(BETA, 18), 1.0, Pow(BETA, 8));
  }

  /** Spare bytes do not hurt. */
  lemma RoomMore(range: int, a: nat, d: nat, n: int, n': int)
    requires 0 <= range && n <= n' && Room(range, a, d, n)
    ensures Room(range, a, d, n')
    decreases n' - n
  {
    if n < n' {
      ShrinkFraction(a, d);
      PowPositive(256.0, n);
      var x := (range as real) * Shrink(a, d) * Pow(256.0, n);
      assert (range as real) * Shrink(a, d) * Pow(256.0, n + 1) == 256.0 * x;
      RoomMore(range, a, d, n + 1, n');
    }
  }

  lemma AlphaPower7()
    ensures Pow(ALPHA, 7) * 5600000000000.0 >= 1.0
  {
    var a2 := Pow(ALPHA, 2);
    assert a2 == ALPHA * ALPHA by { assert Pow(ALPHA, 1) == ALPHA; }
    PowAdd(ALPHA, 2, 2);
    PowAdd(ALPHA, 4, 2);
    PowAdd(ALPHA, 6, 1);
    assert Pow(ALPHA, 1) == ALPHA;
    assert Pow(ALPHA, 7) == a2 * a2 * a2 * ALPHA;
  }

  lemma BetaPower26()
    ensures Pow(BETA, 26) * 68000000.0 >= 1.0
  {
    assert Pow(BETA, 1) == BETA;
    assert Pow(BETA, 2) == BETA * BETA;
    PowAdd(BETA, 2, 2);
    PowAdd(BETA, 4, 4);
    PowAdd(BETA, 8, 4);
    PowAdd(BETA, 12, 1);
    PowAdd(BETA, 13, 13);
    var b13 := Pow(BETA, 13);
    assert b13 >= 1.0 / 8200.0;
    MulMono(1.0 / 8200.0, b13, b13);
    assert Pow(BETA, 26) >= 1.0 / 8200.0 * (1.0 / 8200.0);
  }

  lemma Grow20()
    ensures Pow(256.0, 20) == 1461501637330902918203684832716283019655932542976.0
  {
    assert Pow(256.0, 1) == 256.0;
    assert Pow(256.0, 2) == 65536.0;
    PowAdd(256.0, 2, 2);
    PowAdd(256.0, 4, 4);
    PowAdd(256.0, 8, 8);
    PowAdd(256.0, 16, 4);
  }

  lemma ProductMono(x: real, x': real, y: real, y': real)
    requires 0.0 <= x <= x' && 0.0 <= y <= y'
    ensures x * y <= x' * y'
  {
    MulMono(x, x', y);
    MulMono(y, y', x');
  }

  lemma AlphaPower21()
    ensures Pow(ALPHA, 21) * 176000000000000000000000000000000000000.0 >= 1.0
  {
    AlphaPower7();
    PowAdd(ALPHA, 7, 7);
    PowAdd(ALPHA, 14, 7);
    var c := 1.0 / 5600000000000.0;
    var a7 := Pow(ALPHA, 7);
    ProductMono(c, a7, c, a7);
    ProductMono(c * c, a7 * a7, c, a7);
    assert Pow(ALPHA, 21) == a7 * a7 * a7;
  }

  lemma WorstShrink()
    ensures Shrink(21, 26) * 12000000000000000000000000000000000000000000000.0 >= 1.0
  {
    AlphaPower21();
    BetaPower26();
    var a, b := Pow(ALPHA, 21), Pow(BETA, 26);
    ProductMono(1.0 / 176000000000000000000000000000000000000.0, a, 1.0 / 68000000.0, b);
    assert Shrink(21, 26) == a * b;
  }

  /** The heart of LZMA_IN_REQUIRED: from any range a finished symbol can leave behind, 22 adaptive
      and 26 direct decisions, the last of them adaptive, consume at most 20 bytes; the extra
      normalization afterwards may take one more. */
  lemma SymbolRoom(range: int)
    requires RANGE_MIN <= range
    ensures Room(range, 21, 26, 20)
    ensures Room(range, 22, 26, 21)
  {
    WorstShrink();
    Grow20();
    var s, g, r := Shrink(21, 26), Pow(256.0, 20), range as real;
    var low := 1.0 / 12000000000000000000000000000000000000000000000.0;
    ProductMono(RANGE_MIN as real, r, low, s);
    MulMono(RANGE_MIN as real * low, r * s, g);
    ShrinkStep(21, 26);
    assert Pow(256.0, 21) == 256.0 * g;
    assert r * (ALPHA * s) * (256.0 * g) == (256.0 * ALPHA) * (r * s * g);
  }
}
