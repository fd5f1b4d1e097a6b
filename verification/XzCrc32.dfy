/**
 The CRC32 of compat/xz_crc32.c: the table, the checksum loop over it, and what they compute, which is one bit
 of a polynomial division at a time.
 */
module XzCrc32 {
  import opened Words
  import opened Arithmetic

  const POLY: Word := 0xEDB8_8320

  /** Exclusive or. */
  function Xor(x: nat, y: nat): nat
    decreases x + y, y
  {
    if x + y == 0 then 0 else 2 * Xor(x / 2, y / 2) + (x + y) % 2
  }

  // h << k
  function Left(h: nat, k: nat): nat
    decreases k
  {
    if k == 0 then h else 2 * Left(h, k - 1)
  }

  lemma LeftIs(h: nat)
    ensures Left(h, 8) == h * 0x100
  {
    assert Left(h, 4) == h * 0x10;
  }

  lemma {:induction false} LeftOne(k: nat)
    ensures Left(1, k) == Pow2(k)
    decreases k
  {
    if k > 0 {
      LeftOne(k - 1);
    }
  }

  lemma PowersAre()
    ensures Pow2(7) == 0x80 && Pow2(8) == 0x100 && Pow2(31) == 0x8000_0000 && Pow2(32) == TWO32
  {
    assert Pow2(8) == 0x100 && Pow2(16) == 0x1_0000 && Pow2(24) == 0x100_0000;
  }

  lemma XorStep(x: nat, y: nat)
    ensures Xor(x, y) / 2 == Xor(x / 2, y / 2) && Xor(x, y) % 2 == (x + y) % 2
    ensures Xor(x, y) == 2 * Xor(x / 2, y / 2) + (x + y) % 2
  {
  }

  lemma {:induction false} XorBelow(x: nat, y: nat, k: nat)
    requires x < Pow2(k) && y < Pow2(k)
    ensures Xor(x, y) < Pow2(k)
    decreases k
  {
    if k > 0 {
      XorBelow(x / 2, y / 2, k - 1);
      XorStep(x, y);
    }
  }

  lemma {:induction false} XorCommutes(x: nat, y: nat)
    ensures Xor(x, y) == Xor(y, x)
    decreases x + y
  {
    if x + y > 0 {
      XorCommutes(x / 2, y / 2);
    }
  }

  lemma {:induction false} XorAssociates(x: nat, y: nat, z: nat)
    ensures Xor(Xor(x, y), z) == Xor(x, Xor(y, z))
    decreases x + y + z
  {
    if x + y + z > 0 {
      var a, b := Xor(x, y), Xor(y, z);
      XorStep(x, y);
      XorStep(y, z);
      XorAssociates(x / 2, y / 2, z / 2);
      XorStep(a, z);
      XorStep(x, b);
      SumMod(x, y, z, a, b);
    }
  }

  lemma SumMod(x: nat, y: nat, z: nat, a: nat, b: nat)
    requires a % 2 == (x + y) % 2 && b % 2 == (y + z) % 2
    ensures (a + z) % 2 == (x + b) % 2
  {
    ModAdd(a, z, 2);
    ModAdd(x + y, z, 2);
    ModAdd(b, x, 2);
    ModAdd(y + z, x, 2);
  }

  lemma {:induction false} XorNothing(x: nat)
    ensures Xor(x, 0) == x && Xor(0, x) == x && Xor(x, x) == 0
    decreases x
  {
    if x > 0 {
      XorNothing(x / 2);
      XorStep(x, x);
    }
  }

  lemma XorCancels(x: nat, y: nat, z: nat)
    ensures Xor(x, z) == Xor(y, z) ==> x == y
    ensures Xor(z, x) == Xor(z, y) ==> x == y
    ensures Xor(Xor(x, z), Xor(y, z)) == Xor(x, y)
  {
    XorAssociates(x, z, z);
    XorAssociates(y, z, z);
    XorNothing(x);
    XorNothing(y);
    XorNothing(z);
    XorCommutes(x, z);
    XorCommutes(y, z);
    XorAssociates(x, z, Xor(y, z));
    XorAssociates(z, z, y);
  }

  // the bits above number k are not touched by a smaller number
  lemma {:induction false} XorSplits(h: nat, x: nat, y: nat, k: nat)
    requires x < Pow2(k) && y < Pow2(k)
    ensures Xor(Left(h, k) + x, y) == Left(h, k) + Xor(x, y)
    decreases k
  {
    if k == 0 {
      XorNothing(h);
    } else {
      XorSplits(h, x / 2, y / 2, k - 1);
      SplitStep(Left(h, k - 1), x, y);
    }
  }

  lemma SplitStep(q: nat, x: nat, y: nat)
    requires Xor(q + x / 2, y / 2) == q + Xor(x / 2, y / 2)
    ensures Xor(2 * q + x, y) == 2 * q + Xor(x, y)
  {
    Halves(q, x, y);
    XorHalves(x, y, x / 2, y / 2);
    XorHalves(2 * q + x, y, q + x / 2, y / 2);
  }

  lemma XorHalves(x: nat, y: nat, x': nat, y': nat)
    requires x' == x / 2 && y' == y / 2
    ensures Xor(x, y) == 2 * Xor(x', y') + (x + y) % 2
  {
    XorStep(x, y);
  }

  lemma Halves(q: nat, x: nat, y: nat)
    ensures (2 * q + x) / 2 == q + x / 2 && (2 * q + x + y) % 2 == (x + y) % 2
  {
    ModMultiple(x + y, q, 2);
  }

  lemma XorHigh(h: nat, x: nat, k: nat)
    requires x < Pow2(k)
    ensures Xor(Left(h, k), x) == Left(h, k) + x
  {
    XorHighBy(h, x, k, x - x);
  }

  lemma XorHighBy(h: nat, x: nat, k: nat, zero: nat)
    requires x < Pow2(k) && zero == 0
    ensures Xor(Left(h, k) + zero, x) == Left(h, k) + x
  {
    XorSplits(h, zero, x, k);
    XorNothing(x);
  }

  function Xor32(x: Word, y: Word): Word {
    PowersAre();
    XorBelow(x, y, 32);
    Xor(x, y)
  }

  function Not(x: Word): Word { TWO32 - 1 - x }

  // one bit: the remainder is reduced when the bit that leaves is set
  function Shift(x: Word): Word {
    if x % 2 == 1 then Xor32(x / 2, POLY) else x / 2
  }

  function Shifts(x: Word, n: nat): Word
    decreases n, x
  {
    if n == 0 then x else Shifts(Shift(x), n - 1)
  }

  /** The remainder after the bytes of `s`, lowest bit first. */
  function Remainder(s: seq<byte>, x: Word): Word
    decreases s, x
  {
    if s == [] then x else Remainder(s[1..], Shifts(Xor32(x, s[0]), 8))
  }

  /** The checksum of what was summed up to `crc` so far, and `s`. */
  function Crc(s: seq<byte>, crc: Word): Word { Not(Remainder(s, Not(crc))) }

  /** A checksum computed in slices is the checksum of the whole. */
  lemma CrcSlices(s: seq<byte>, t: seq<byte>, crc: Word)
    ensures Crc(s + t, crc) == Crc(t, Crc(s, crc))
  {
    RemainderSlices(s, t, Not(crc));
  }

  lemma {:induction false} RemainderSlices(s: seq<byte>, t: seq<byte>, x: Word)
    ensures Remainder(s + t, x) == Remainder(t, Remainder(s, x))
    decreases |s|
  {
    if s == [] {
      assert s + t == t;
    } else {
      assert (s + t)[1..] == s[1..] + t;
      RemainderSlices(s[1..], t, Shifts(Xor32(x, s[0]), 8));
    }
  }

  lemma ShiftLinear(x: Word, y: Word)
    ensures Shift(Xor32(x, y)) == Xor32(Shift(x), Shift(y))
  {
    var a: Word, b: Word, z := x / 2, y / 2, Xor32(x, y);
    XorStep(x, y);
    assert z / 2 == Xor32(a, b);
    if x % 2 == 1 && y % 2 == 1 {
      assert z % 2 == 0;
      XorCancels(a, b, POLY);
    } else if x % 2 == 1 {
      assert z % 2 == 1;
      XorAssociates(a, b, POLY);
      XorAssociates(a, POLY, b);
      XorCommutes(POLY, b);
    } else if y % 2 == 1 {
      assert z % 2 == 1;
      XorAssociates(a, b, POLY);
    } else {
      assert z % 2 == 0;
    }
  }

  lemma {:induction false} ShiftsLinear(x: Word, y: Word, n: nat)
    ensures Shifts(Xor32(x, y), n) == Xor32(Shifts(x, n), Shifts(y, n))
    decreases n
  {
    if n > 0 {
      ShiftLinear(x, y);
      ShiftsLinear(Shift(x), Shift(y), n - 1);
    }
  }

  // the part of the remainder above the bits that leave only moves
  lemma {:induction false} HighMoves(h: nat, n: nat)
    requires Left(h, n) < TWO32
    ensures h < TWO32 && Shifts(Left(h, n), n) == h
    decreases n
  {
    if n > 0 {
      HighMoves(h, n - 1);
      assert Shift(Left(h, n)) == Left(h, n - 1);
    }
  }

  /** A byte at a time: the table entry of the low byte, and the rest moved down. */
  lemma ByteAtATime(x: Word, b: byte)
    ensures Xor(b, x % 0x100) < 0x100
    ensures Shifts(Xor32(x, b), 8) == Xor32(Shifts(Xor(b, x % 0x100), 8), x / 0x100)
  {
    PowersAre();
    var h, l := x / 0x100, x % 0x100;
    var low := Xor(b, l);
    LeftIs(h);
    XorBelow(b, l, 8);
    XorCommutes(b, l);
    XorSplits(h, l, b, 8);
    XorHigh(h, low, 8);
    XorCommutes(low, h * 0x100);
    HighMoves(h, 8);
    Halfway(low, h, x, b);
  }

  lemma Halfway(low: Word, h: nat, x: Word, b: byte)
    requires h * 0x100 < TWO32 && Xor32(x, b) == Xor32(low, h * 0x100) && Shifts(h * 0x100, 8) == h
    ensures h < TWO32 && Shifts(Xor32(x, b), 8) == Xor32(Shifts(low, 8), h)
  {
    ShiftsLinear(low, h * 0x100, 8);
  }

  /** The division can be undone, so different remainders stay different. */
  lemma ShiftInjective(x: Word, y: Word)
    requires Shift(x) == Shift(y)
    ensures x == y
  {
    ReducedIsLarge(x / 2);
    ReducedIsLarge(y / 2);
    XorCancels(x / 2, y / 2, POLY);
  }

  lemma ReducedIsLarge(x: nat)
    requires x < 0x8000_0000
    ensures Xor(x, POLY) >= 0x8000_0000
  {
    PowersAre();
    LeftOne(31);
    XorSplits(1, POLY - 0x8000_0000, x, 31);
    XorCommutes(POLY, x);
  }

  lemma {:induction false} ShiftsInjective(x: Word, y: Word, n: nat)
    requires Shifts(x, n) == Shifts(y, n)
    ensures x == y
    decreases n
  {
    if n > 0 {
      ShiftsInjective(Shift(x), Shift(y), n - 1);
      ShiftInjective(x, y);
    }
  }

  lemma {:induction false} RemainderInjective(s: seq<byte>, x: Word, y: Word)
    requires Remainder(s, x) == Remainder(s, y)
    ensures x == y
    decreases |s|
  {
    if s != [] {
      var b := s[0];
      RemainderInjective(s[1..], Shifts(Xor32(x, b), 8), Shifts(Xor32(y, b), 8));
      ShiftsInjective(Xor32(x, b), Xor32(y, b), 8);
      XorCancels(x, y, b);
    }
  }

  /** A single changed byte never goes unnoticed. */
  lemma ChangedByteDetected(s: seq<byte>, b: byte, b': byte, t: seq<byte>, crc: Word)
    requires b != b'
    ensures Crc(s + [b] + t, crc) != Crc(s + [b'] + t, crc)
  {
    var x := Remainder(s, Not(crc));
    ChangedByte(s, b, t, Not(crc));
    ChangedByte(s, b', t, Not(crc));
    if Crc(s + [b] + t, crc) == Crc(s + [b'] + t, crc) {
      RemainderInjective(t, Shifts(Xor32(x, b), 8), Shifts(Xor32(x, b'), 8));
      ShiftsInjective(Xor32(x, b), Xor32(x, b'), 8);
      XorCancels(b, b', x);
    }
  }

  lemma ChangedByte(s: seq<byte>, b: byte, t: seq<byte>, x: Word)
    ensures Remainder(s + [b] + t, x) == Remainder(t, Shifts(Xor32(Remainder(s, x), b), 8))
  {
    RemainderSlices(s + [b], t, x);
    RemainderSlices(s, [b], x);
    var y := Remainder(s, x);
    assert Remainder([b], y) == Remainder([], Shifts(Xor32(y, b), 8));
  }

  // xz_crc32_table is written once, and then only read.
  class Crc32 {
    const table: seq<Word>

    ghost predicate Valid() {
      |table| == 256 && forall i: nat :: i < 256 ==> table[i] == Shifts(i, 8)
    }

    /** xz_crc32_init */
    constructor ()
      ensures Valid()
    {
      var t := new Word[256];
      var i: nat := 0;
      while i < 256
        invariant i <= 256
        invariant forall k: nat :: k < i ==> t[k] == Shifts(k, 8)
      {
        t[i] := Entry(i);
        i := i + 1;
      }
      table := t[..];
    }

    // the inner loop of xz_crc32_init
    static method Entry(i: nat) returns (r: Word)
      requires i < 256
      ensures r == Shifts(i, 8)
    {
      var j := 0;
      r := i;
      while j < 8
        invariant 0 <= j <= 8
        invariant Shifts(r, 8 - j) == Shifts(i, 8)
      {
        XorNothing(r / 2);
        r := Xor32(r / 2, if r % 2 == 1 then POLY else 0);
        j := j + 1;
      }
    }

    /** xz_crc32 */
    method Sum(buf: array<byte>, at: nat, size: nat, crc: Word) returns (r: Word)
      requires Valid() && at + size <= buf.Length
      ensures r == Crc(buf[at..at + size], crc)
    {
      var x, i := Not(crc), 0;
      ghost var s := buf[at..at + size];
      assert s[0..] == s;
      while i < size
        invariant i <= size
        invariant Remainder(s, Not(crc)) == Remainder(s[i..], x)
      {
        var b := buf[at + i];
        ByteAtATime(x, b);
        assert s[i..][0] == b && s[i..][1..] == s[i + 1..];
        x := Xor32(table[Xor(b, x % 0x100)], x / 0x100);
        i := i + 1;
      }
      r := Not(x);
    }
  }
}
