/**
 What the checksum of compat/xz_crc32.c is: the remainder of a division of polynomials with coefficients 0 and 1, by
 the generator of IEEE 802.3 and the .xz format, x^32 + x^26 + x^23 + x^22 + x^16 + x^12 + x^11 + x^10 + x^8 + x^7 +
 x^5 + x^4 + x^2 + x + 1.
 */
module CrcPolynomial {
  import opened Common
  import opened Words
  import opened Arithmetic
  import opened XzCrc32

  const WIDTH: nat := 32

  // the coefficients of x^31 to x^0
  function Generator(): (g: seq<bool>)
    ensures |g| == 32
  {
    Coefficients([26, 23, 22, 16, 12, 11, 10, 8, 7, 5, 4, 2, 1, 0])
  }

  function Coefficients(powers: seq<nat>): (g: seq<bool>)
    ensures |g| == 32
  {
    seq(32, i => 31 - i in powers)
  }

  function Plus(a: seq<bool>, b: seq<bool>): (c: seq<bool>)
    requires |a| == |b|
    ensures |c| == |a|
  {
    seq(|a|, i requires 0 <= i < |a| => a[i] != b[i])
  }

  /** One step of the long division: the remainder so far, and the next coefficient of the dividend. */
  function Bring(r: seq<bool>, bit: bool): (r': seq<bool>)
    requires |r| == 32
    ensures |r'| == 32
  {
    if r[0] != bit then Plus(r[1..] + [false], Generator()) else r[1..] + [false]
  }

  function Divide(r: seq<bool>, dividend: seq<bool>): (r': seq<bool>)
    requires |r| == 32
    ensures |r'| == 32
    decreases |dividend|
  {
    if dividend == [] then r else Divide(Bring(r, dividend[0]), dividend[1..])
  }

  /** The lowest `n` bits of a number, lowest first: in that order the bits of a byte are coefficients, and the
      register of the C code holds x^31 in its lowest bit. */
  function Bits(x: nat, n: nat): (s: seq<bool>)
    ensures |s| == n
    decreases n, SEAL + 1
  {
    SealedBits(x, n, SEAL)
  }

  function SealedBits(x: nat, n: nat, seal: nat): (s: seq<bool>)
    ensures |s| == n
    decreases n, seal
  {
    if seal > 0 then SealedBits(x, n, seal - 1) else if n == 0 then [] else [x % 2 == 1] + Bits(x / 2, n - 1)
  }

  // The definition of Bits is only unfolded here.
  lemma {:induction false} BitsAre(x: nat, n: nat)
    ensures n > 0 ==> Bits(x, n) == [x % 2 == 1] + Bits(x / 2, n - 1) && Bits(x, n)[1..] == Bits(x / 2, n - 1)
    ensures n == 0 ==> Bits(x, n) == []
  {
    assert SealedBits(x, n, 1) == SealedBits(x, n, 0);
    assert SealedBits(x, n, 2) == SealedBits(x, n, 1);
    assert SealedBits(x, n, 3) == SealedBits(x, n, 2);
  }

  function Message(s: seq<byte>): seq<bool>
    decreases |s|
  {
    if s == [] then [] else Bits(s[0], 8) + Message(s[1..])
  }

  lemma {:induction false} BitsXor(x: nat, y: nat, n: nat)
    ensures Bits(Xor(x, y), n) == Plus(Bits(x, n), Bits(y, n))
    decreases n
  {
    BitsAre(x, n);
    BitsAre(y, n);
    BitsAre(Xor(x, y), n);
    if n > 0 {
      BitsXor(x / 2, y / 2, n - 1);
      XorStep(x, y);
    }
  }

  lemma {:induction false} BitsZero(n: nat)
    ensures forall i :: 0 <= i < n ==> !Bits(0, n)[i]
    decreases n
  {
    BitsAre(0, n);
    if n > 0 {
      BitsZero(n - 1);
    }
  }

  // the upper bits of a number are those of its half
  lemma {:induction false} BitsHalf(x: nat, n: nat)
    requires n > 0 && x < Pow2(n)
    ensures Bits(x / 2, n) == Bits(x, n)[1..] + [false]
    decreases n
  {
    BitsAre(x, n);
    BitsAre(x / 2, n);
    BitsAre(x / 2, n - 1);
    if n == 1 {
      BitsAre(x / 2 / 2, 0);
    } else {
      BitsHalf(x / 2, n - 1);
    }
  }

  lemma {:induction false} SetBit(x: nat, n: nat, k: nat)
    requires x < Pow2(k) && k < n
    ensures Bits(x + Pow2(k), n) == Bits(x, n)[k := true] && x + Pow2(k) < Pow2(k + 1)
    decreases k
  {
    BitsAre(x, n);
    BitsAre(x + Pow2(k), n);
    if k == 0 {
      assert (x + 1) / 2 == x / 2;
    } else {
      SetBit(x / 2, n - 1, k - 1);
      HalfOf(x, Pow2(k - 1));
    }
  }

  lemma {:induction false} HalfOf(x: nat, q: nat)
    ensures (x + 2 * q) / 2 == x / 2 + q && (x + 2 * q) % 2 == x % 2
  {
  }

  // the bit for a power of x
  function Weight(e: nat): nat
    requires e < 32
  {
    Pow2(31 - e)
  }

  // one more power of x, lower than those before
  lemma {:induction false} WithPower(x: nat, powers: seq<nat>, last: nat, e: nat) returns (y: nat, powers': seq<nat>)
    requires e < last <= 32 && x < Pow2(32 - last) && Bits(x, WIDTH) == Coefficients(powers)
    ensures y == x + Weight(e) < Pow2(32 - e) && powers' == powers + [e] && Bits(y, WIDTH) == Coefficients(powers')
  {
    Pow2Rises(32 - last, 31 - e);
    SetBit(x, WIDTH, 31 - e);
    y, powers' := x + Pow2(31 - e), powers + [e];
    assert Coefficients(powers') == Coefficients(powers)[31 - e := true];
  }

  lemma {:induction false} PolyIs()
    ensures POLY == 0xEDB8_8320 && Bits(POLY, WIDTH) == Generator()
  {
    Weights();
    var x, p := UpperHalf();
    x, p := WithPower(x, p, 11, 10);
    x, p := WithPower(x, p, 10, 8);
    x, p := WithPower(x, p, 8, 7);
    x, p := WithPower(x, p, 7, 5);
    x, p := WithPower(x, p, 5, 4);
    x, p := WithPower(x, p, 4, 2);
    x, p := WithPower(x, p, 2, 1);
    x, p := WithPower(x, p, 1, 0);
    assert x == POLY;
    assert p == [26, 23, 22, 16, 12, 11, 10, 8, 7, 5, 4, 2, 1, 0];
  }

  lemma {:induction false} UpperHalf() returns (x: nat, p: seq<nat>)
    ensures x == 0x18_8320 < Pow2(32 - 11) && p == [26, 23, 22, 16, 12, 11] && Bits(x, WIDTH) == Coefficients(p)
  {
    x, p := 0, [];
    BitsZero(WIDTH);
    assert Bits(0, WIDTH) == Coefficients([]);
    Weights();
    x, p := WithPower(x, p, 32, 26);
    x, p := WithPower(x, p, 26, 23);
    x, p := WithPower(x, p, 23, 22);
    x, p := WithPower(x, p, 22, 16);
    x, p := WithPower(x, p, 16, 12);
    x, p := WithPower(x, p, 12, 11);
  }

  lemma {:induction false} Weights()
    ensures Weight(26) == 0x20 && Weight(23) == 0x100 && Weight(22) == 0x200 && Weight(16) == 0x8000
    ensures Weight(12) == 0x8_0000 && Weight(11) == 0x10_0000 && Weight(10) == 0x20_0000 && Weight(8) == 0x80_0000
    ensures Weight(7) == 0x100_0000 && Weight(5) == 0x400_0000 && Weight(4) == 0x800_0000
    ensures Weight(2) == 0x2000_0000 && Weight(1) == 0x4000_0000 && Weight(0) == 0x8000_0000
  {
    assert Pow2(8) == 0x100 && Pow2(15) == 0x8000 && Pow2(19) == 0x8_0000 && Pow2(23) == 0x80_0000;
    assert Pow2(27) == 0x800_0000 && Pow2(31) == 0x8000_0000;
  }

  // shifting zeros out of the division
  lemma {:induction false} ShiftIs(x: Word)
    ensures Bits(Shift(x), WIDTH) == Bring(Bits(x, WIDTH), false)
  {
    PowersAre();
    PolyIs();
    BitsHalf(x, WIDTH);
    BitsXor(x / 2, POLY, WIDTH);
  }

  // a bit that is brought in is added to the one that leaves
  lemma {:induction false} BringOne(x: Word, bit: nat)
    requires bit < 2
    ensures Bits(Shift(Xor32(x, bit)), WIDTH) == Bring(Bits(x, WIDTH), bit == 1)
  {
    var y := Xor32(x, bit);
    ShiftIs(y);
    BitsXor(x, bit, WIDTH);
    BitsZero(WIDTH - 1);
    BitsAre(bit, WIDTH);
    AddFirst(Bits(x, WIDTH), Bits(bit, WIDTH), bit == 1);
  }

  lemma {:induction false} AddFirst(r: seq<bool>, b: seq<bool>, bit: bool)
    requires |r| == |b| == 32 && b[0] == bit && forall i :: 1 <= i < 32 ==> !b[i]
    ensures Bring(Plus(r, b), false) == Bring(r, bit)
  {
    assert Plus(r, b)[1..] == r[1..];
  }

  /** Eight bits at once, added in advance. */
  lemma {:induction false} BringBits(x: Word, b: nat, n: nat)
    requires b < Pow2(n) && n <= 32
    ensures b < TWO32 && Bits(Shifts(Xor32(x, b), n), WIDTH) == Divide(Bits(x, WIDTH), Bits(b, n))
    decreases n
  {
    PowersAre();
    Pow2Rises(n, 32);
    BitsAre(b, n);
    if n == 0 {
      XorNothing(x);
    } else {
      var bit, rest := b % 2, b / 2;
      var y := Shift(Xor32(x, bit));
      Parted(x, b);
      BringOne(x, bit);
      BringBits(y, rest, n - 1);
      DivideOne(Bits(x, WIDTH), bit == 1, Bits(rest, n - 1));
    }
  }

  lemma {:induction false} Pow2Rises(m: nat, n: nat)
    requires m <= n
    ensures Pow2(m) <= Pow2(n)
  {
    if m < n {
      Pow2Rises(m, n - 1);
    }
  }

  // the bits behind the first only move
  lemma {:induction false} Parted(x: Word, b: Word)
    ensures Shift(Xor32(x, b)) == Xor32(Shift(Xor32(x, b % 2)), b / 2)
  {
    var bit: Word, even: Word, h: Word := b % 2, 2 * (b / 2), b / 2;
    XorEven(bit, h);
    XorAssociates(x, bit, even);
    var a := Xor32(x, bit);
    assert Xor32(a, even) == Xor32(x, b);
    ShiftLinear(a, even);
    Evens(even, h);
  }

  lemma Evens(even: Word, h: Word)
    requires even == 2 * h
    ensures Shift(even) == h
  {
  }

  lemma {:induction false} XorEven(bit: nat, h: nat)
    requires bit < 2
    ensures Xor(bit, 2 * h) == bit + 2 * h
  {
    if bit + 2 * h > 0 {
      XorStep(bit, 2 * h);
      XorNothing(h);
    }
  }

  /** What the table look-ups and shifts leave is the remainder of the division of the message. */
  lemma {:induction false} RemainderIs(s: seq<byte>, x: Word)
    ensures Bits(Remainder(s, x), WIDTH) == Divide(Bits(x, WIDTH), Message(s))
    decreases |s|
  {
    if s != [] {
      assert Pow2(8) == 0x100;
      BringBits(x, s[0], 8);
      RemainderIs(s[1..], Shifts(Xor32(x, s[0]), 8));
      DivideOn(Bits(x, WIDTH), Bits(s[0], 8), Message(s[1..]));
    }
  }

  lemma {:induction false} DivideOne(r: seq<bool>, bit: bool, rest: seq<bool>)
    requires |r| == 32
    ensures Divide(r, [bit] + rest) == Divide(Bring(r, bit), rest)
  {
    assert ([bit] + rest)[1..] == rest;
  }

  lemma {:induction false} DivideOn(r: seq<bool>, a: seq<bool>, b: seq<bool>)
    requires |r| == 32
    ensures Divide(r, a + b) == Divide(Divide(r, a), b)
    decreases |a|
  {
    if a == [] {
      assert a + b == b;
    } else {
      assert (a + b)[1..] == a[1..] + b;
      DivideOn(Bring(r, a[0]), a[1..], b);
    }
  }

  function Negated(r: seq<bool>): (n: seq<bool>)
    ensures |n| == |r|
  {
    seq(|r|, i requires 0 <= i < |r| => !r[i])
  }

  /** The checksum of a message: the division begins with a remainder of ones, and ends with all coefficients
      changed. */
  lemma {:induction false} ChecksumIs(s: seq<byte>)
    ensures Bits(Crc(s, 0), WIDTH) == Negated(Divide(seq(32, _ => true), Message(s)))
  {
    RemainderIs(s, 0xFFFF_FFFF);
    PowersAre();
    BitsNegated(0, WIDTH);
    BitsZero(WIDTH);
    BitsNegated(Remainder(s, 0xFFFF_FFFF), WIDTH);
    assert Bits(0xFFFF_FFFF, WIDTH) == Negated(Bits(0, WIDTH)) == seq(32, _ => true);
  }

  lemma {:induction false} BitsNegated(x: nat, n: nat)
    requires x < Pow2(n)
    ensures Bits(Pow2(n) - 1 - x, n) == Negated(Bits(x, n))
    decreases n
  {
    BitsAre(x, n);
    BitsAre(Pow2(n) - 1 - x, n);
    if n > 0 {
      var y := Pow2(n) - 1 - x;
      assert y / 2 == Pow2(n - 1) - 1 - x / 2 && (y % 2 == 1 <==> x % 2 == 0);
      BitsNegated(x / 2, n - 1);
    }
  }
}
