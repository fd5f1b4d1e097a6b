/**
 What the x86 filter does to instructions, in the terms of section 5.3.2 of the .xz File Format and not in those of
 the filter's state: bytes, distances back, and addresses as signed numbers.
 */
module BcjLaws {
  import opened Words
  import opened Arithmetic
  import opened BcjX86

  // the four bytes of a number in two's complement, lowest first
  function LittleEndian(x: int): (s: seq<byte>)
    ensures |s| == 4
  {
    [x % 0x100, x / 0x100 % 0x100, x / 0x1_0000 % 0x100, x / 0x100_0000 % 0x100]
  }

  function Value(a: int, b: int, c: int, d: int): int { a + 0x100 * b + 0x1_0000 * c + 0x100_0000 * d }

  // the number from -2^24 to 2^24 - 1 that has the same low 25 bits
  function Signed25(x: int): (r: int)
    ensures -0x100_0000 <= r < 0x100_0000
  {
    (x + 0x100_0000) % 0x200_0000 - 0x100_0000
  }

  /** The relative address for the absolute one `src` of an instruction that ends at `base`. `back` tells how many
      bytes before the instruction there is an opcode that was left alone; 0 when there is none. The top byte of that
      opcode's address must not come to look like one, so when it would, all bits up to it are inverted and the
      address is made relative once more. */
  function Address(back: nat, base: int, src: int): int
    requires back <= 3
  {
    var d := src - base;
    var span := if back == 1 then 0x100_0000 else if back == 2 then 0x1_0000 else 0x100;
    var top := d / (span / 0x100) % 0x100;
    Signed25(if back > 0 && (top == 0 || top == 0xFF) then d + (span - 1 - 2 * (d % span)) - base else d)
  }

  /** The filter, told by what lies before each byte: `a`, `b` and `c` say whether one, two and three bytes back
      there is an opcode that was left alone. */
  function Reference(a: bool, b: bool, c: bool, pos: nat, s: seq<byte>): (r: seq<byte>)
    decreases |s|
  {
    if |s| < 5 then s
    else if s[0] != 0xE8 && s[0] != 0xE9 then [s[0]] + Reference(false, a, b, pos + 1, s[1..])
    else if LeftAlone(a, b, c, s[1], s[2], s[3], s[4]) then [s[0]] + Reference(true, a, b, pos + 1, s[1..])
    else
      var back := if a then 1 else if b then 2 else if c then 3 else 0;
      var src := Value(s[1], s[2], s[3], s[4]);
      [s[0]] + LittleEndian(Address(back, pos + 5, src)) + Reference(false, false, false, pos + 5, s[5..])
  }

  /** An opcode is left alone when its address is out of reach, when there are two opcodes that were left alone in the
      three bytes before it, or when there is one whose address was in reach. */
  predicate LeftAlone(a: bool, b: bool, c: bool, s1: byte, s2: byte, s3: byte, s4: byte) {
    || (s4 != 0 && s4 != 0xFF)
    || (a && b) || (a && c) || (b && c)
    || (a && (s3 == 0 || s3 == 0xFF))
    || (b && (s2 == 0 || s2 == 0xFF))
    || (c && (s1 == 0 || s1 == 0xFF))
  }

  /** The filter is that. */
  lemma WholeIsReference(data: seq<byte>)
    ensures Whole(data) == Reference(false, false, false, 0, data)
  {
    FilterIsReference(0, 0, data);
  }

  lemma {:induction false} FilterIsReference(m: Mask, pos: nat, s: seq<byte>)
    ensures var f := Filter(m, pos, s); f.out + f.rest == Reference(m % 2 == 1, m / 2 % 2 == 1, m / 4 == 1, pos, s)
    decreases |s|
  {
    FilterIs(m, pos, s);
    if |s| > 4 {
      var k, m', o := Advance(m, s), AfterFirst(m, s), FirstOut(m, pos, s);
      FilterIsReference(m', pos + k, s[k..]);
      var g := Filter(m', pos + k, s[k..]);
      assert o + g.out + g.rest == o + (g.out + g.rest);
      FirstIsReference(m, pos, s);
    }
  }

  lemma {:induction false} FirstIsReference(m: Mask, pos: nat, s: seq<byte>)
    requires |s| > 4
    ensures var k, m' := Advance(m, s), AfterFirst(m, s);
      Reference(m % 2 == 1, m / 2 % 2 == 1, m / 4 == 1, pos, s)
      == FirstOut(m, pos, s) + Reference(m' % 2 == 1, m' / 2 % 2 == 1, m' / 4 == 1, pos + k, s[k..])
  {
    Decision(m, s);
    if Advance(m, s) == 5 {
      Conversion(m, pos, s);
    }
  }

  // the mask says what lies in the three bytes before
  lemma Decision(m: Mask, s: seq<byte>)
    requires |s| > 4
    ensures (s[0] == 0xE8 || s[0] == 0xE9) == IsBranch(s[0])
    ensures var m' := AfterFirst(m, s);
      var a, b, c := m % 2 == 1, m / 2 % 2 == 1, m / 4 == 1;
      && (IsBranch(s[0]) ==> (Advance(m, s) == 1 <==> LeftAlone(a, b, c, s[1], s[2], s[3], s[4])))
      && (!IsBranch(s[0]) ==> Advance(m, s) == 1)
      && (Advance(m, s) == 1 ==> (m' % 2 == 1) == IsBranch(s[0]) && (m' / 2 % 2 == 1) == a && (m' / 4 == 1) == b)
      && (Advance(m, s) == 5 ==> m' == 0)
  {
  }

  lemma Conversion(m: Mask, pos: nat, s: seq<byte>)
    requires |s| > 4 && IsBranch(s[0]) && !Skips(m, s)
    ensures var src := Value(s[1], s[2], s[3], s[4]);
      Convert(m, pos, s) == LittleEndian(Address(BitNum(m), pos + 5, src))
  {
    var t := s[1..5];
    var src := Le32(t);
    assert t == [s[1], s[2], s[3], s[4]];
    var base: Word := (pos + 5) % TWO32;
    RelativeIs(m, pos + 5, base, src);
    ExtendIs(Relative(m, base, src));
    BytesAre(SignExtend(Relative(m, base, src)), Signed25(Relative(m, base, src)));
  }

  // x and y differ by a multiple of 2^25
  predicate Same(x: int, y: int) { (x - y) % 0x200_0000 == 0 }

  lemma RelativeIs(m: Mask, pos: nat, base: Word, src: Word)
    requires base == pos % TWO32
    ensures Signed25(Relative(m, base, src)) == Address(BitNum(m), pos, src)
  {
    var n, d := BitNum(m), src - pos;
    var w: Word := (src - base) % TWO32;
    Subtracted(src, src, pos, base);
    SameSigned(w, d);
    if n != 0 {
      var z, f := Span(n), FlipLow(w, n);
      TopSame(w, d, n);
      FlipIs(w, n);
      Subtracted(f, d + (z - 1 - 2 * (d % z)), pos, base);
      SameSigned((f - base) % TWO32, d + (z - 1 - 2 * (d % z)) - pos);
    }
  }

  lemma Subtracted(x: int, y: int, pos: nat, base: Word)
    requires Same(x, y) && base == pos % TWO32
    ensures Same((x - base) % TWO32, y - pos)
  {
    var q, k, h := (x - y) / 0x200_0000, pos / TWO32, (x - base) / TWO32;
    assert x == y + q * 0x200_0000 && pos == base + k * TWO32 && (x - base) % TWO32 == x - base - h * TWO32;
    ModMultiple(0, q + 128 * k - 128 * h, 0x200_0000);
    assert (x - base) % TWO32 - (y - pos) == (q + 128 * k - 128 * h) * 0x200_0000;
  }

  lemma SameSigned(x: int, y: int)
    requires Same(x, y)
    ensures Signed25(x) == Signed25(y)
  {
    var q := (x - y) / 0x200_0000;
    ModMultiple(y + 0x100_0000, q, 0x200_0000);
  }

  // the bytes below the highest are those of the difference
  lemma TopSame(w: Word, d: int, n: nat)
    requires Same(w, d) && 1 <= n <= 3
    ensures w % Span(n) == d % Span(n) && TopByte(w, n) == d / (Span(n) / 0x100) % 0x100
  {
    var z, u := Span(n), Span(n) / 0x100;
    var q := (w - d) / 0x200_0000;
    var c := 0x200_0000 / z;
    assert w == d + q * 0x200_0000 && c * z == 0x200_0000;
    Associate(q, c, z);
    ModMultiple(d, q * c, z);
    assert d == d / z * z + d % z;
    TopOf(d, u, z, d / z);
  }

  lemma TopOf(d: int, u: nat, z: nat, q: int)
    requires u > 0 && z == u * 0x100 && q == d / z
    ensures d / u % 0x100 == d % z / u
  {
    var r := d % z;
    var h, l := r / u, r % u;
    assert r == h * u + l && d == q * z + r;
    Below(r, u, h);
    Associate(q, 0x100, u);
    Distribute(q * 0x100, h, u);
    DivModIs(d, u, q * 0x100 + h, l);
    DivModIs(d / u, 0x100, q, h);
  }

  lemma Below(r: nat, u: nat, h: nat)
    requires u > 0 && r < u * 0x100 && h * u <= r
    ensures h < 0x100
  {
    Distribute(h - 0x100, 0x100, u);
    MulAtLeast(h - 0x100, u);
  }

  lemma FlipIs(x: Word, n: nat)
    requires n <= 3
    ensures FlipLow(x, n) == x + Span(n) - 1 - 2 * (x % Span(n))
  {
    var z := Span(n);
    assert x == x / z * z + x % z;
    var y := FlipLow(x, n);
    assert y == y / z * z + y % z;
  }

  // sign extension is two's complement
  lemma ExtendIs(x: Word)
    ensures var r := Signed25(x); SignExtend(x) == if r >= 0 then r else r + TWO32
  {
  }

  lemma BytesAre(x: Word, r: int)
    requires x == if r >= 0 then r else r + TWO32
    ensures Bytes32(x) == LittleEndian(r)
  {
    ByteIs(x, r, 1, 0x100_0000);
    ByteIs(x, r, 0x100, 0x1_0000);
    ByteIs(x, r, 0x1_0000, 0x100);
    ByteIs(x, r, 0x100_0000, 1);
    SameBytes(x);
  }

  lemma SameBytes(x: Word)
    ensures Bytes32(x) == LittleEndian(x)
  {
    Nested(x);
    DivModIs(x / 0x100_0000, 0x100, 0, x / 0x100_0000);
  }

  lemma Nested(x: int)
    ensures x / 0x1_0000 == x / 0x100 / 0x100 && x / 0x100_0000 == x / 0x100 / 0x100 / 0x100
  {
    var y, a := x / 0x100, x % 0x100;
    var z, b := y / 0x100, y % 0x100;
    DivModIs(x, 0x1_0000, z, 0x100 * b + a);
    DivModIs(x, 0x100_0000, z / 0x100, 0x1_0000 * (z % 0x100) + 0x100 * b + a);
  }

  lemma ByteIs(x: Word, r: int, u: nat, c: nat)
    requires u > 0 && u * c == 0x100_0000 && (x == r || x == r + TWO32)
    ensures r / u % 0x100 == x / u % 0x100
  {
    if x == r + TWO32 {
      var q, less: int := c * 0x100, 0 - c;
      assert u * q == u * c * 0x100 by {
        Associate(u, c, 0x100);
      }
      Distribute(x / u, -q, u);
      assert x == x / u * u + x % u;
      DivModIs(r, u, x / u + -q, x % u);
      ModMultiple(x / u, less, 0x100);
    }
  }

  /** A CALL or JMP to an absolute address in reach becomes one to the relative address, whatever follows. */
  lemma InstructionConverted(op: byte, pos: nat, rel: int, tail: seq<byte>)
    requires op == 0xE8 || op == 0xE9
    requires -0x100_0000 <= rel < 0x100_0000 && -0x100_0000 <= rel + pos + 5 < 0x100_0000
    ensures Filter(0, pos, [op] + LittleEndian(rel + (pos + 5)) + tail)
      == Behind([op] + LittleEndian(rel), Filter(0, pos + 5, tail))
  {
    var at := rel + (pos + 5);
    var t := LittleEndian(at);
    var s := [op] + t + tail;
    var src := Value(s[1], s[2], s[3], s[4]);
    assert s[1] == t[0] && s[2] == t[1] && s[3] == t[2] && s[4] == t[3] && s[5..] == tail && s[0] == op;
    ValueIs(at, t);
    Decision(0, s);
    Conversion(0, pos, s);
    SignedIs(src, pos + 5, rel);
    FirstConverted(pos, s);
  }

  lemma FirstConverted(pos: nat, s: seq<byte>)
    requires |s| > 4 && Advance(0, s) == 5
    ensures Filter(0, pos, s) == Behind([s[0]] + Convert(0, pos, s), Filter(0, pos + 5, s[5..]))
  {
    FilterIs(0, pos, s);
  }

  lemma SignedIs(src: int, base: int, rel: int)
    requires -0x100_0000 <= rel < 0x100_0000 && (src == rel + base || src == rel + base + TWO32)
    ensures Signed25(src - base) == rel
  {
  }

  lemma ValueIs(x: int, t: seq<byte>)
    requires t == LittleEndian(x) && -0x100_0000 <= x < 0x100_0000
    ensures Value(t[0], t[1], t[2], t[3]) == (if x >= 0 then x else x + TWO32) && (t[3] == 0 || t[3] == 0xFF)
  {
    Nested(x);
    var y := x / 0x100;
    var z := y / 0x100;
    var w := z / 0x100;
    assert x == 0x100_0000 * w + 0x1_0000 * (z % 0x100) + 0x100 * (y % 0x100) + x % 0x100;
    assert w == if x >= 0 then 0 else -1;
  }

  /** Bytes among which there is no such opcode stay as they are. */
  lemma {:induction false} NothingConverted(m: Mask, pos: nat, s: seq<byte>)
    requires forall i :: 0 <= i < |s| ==> s[i] != 0xE8 && s[i] != 0xE9
    ensures var f := Filter(m, pos, s); f.out + f.rest == s
    decreases |s|
  {
    FilterIs(m, pos, s);
    if |s| > 4 {
      NothingConverted(m * 2 % 8, pos + 1, s[1..]);
      var g := Filter(m * 2 % 8, pos + 1, s[1..]);
      assert [s[0]] + g.out + g.rest == [s[0]] + (g.out + g.rest);
    }
  }
}
