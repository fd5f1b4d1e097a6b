/**
 The x86 branch filter of compat/xz_dec_bcj.c (bcj_x86): addresses of CALL and JMP instructions become
 relative again. What is to be converted at a place depends on the opcodes just before it, which are
 remembered in a mask of three bits.
 */
module BcjX86 {
  import opened Common
  import opened Words
  import opened Arithmetic

  // bcj_x86_test_msbyte
  const BCJ_X86: nat := 4

  predicate TestMsByte(b: int) { b == 0x00 || b == 0xFF }

  type Mask = m: nat | m < 8

  // mask_to_allowed_status and mask_to_bit_num
  predicate Allowed(m: Mask) { m == 0 || m == 1 || m == 2 || m == 4 }

  function BitNum(m: Mask): (n: nat)
    ensures n <= 3 && (m != 0 ==> n >= 1)
  {
    if m == 0 then 0 else if m == 1 then 1 else if m <= 3 then 2 else 3
  }

  predicate IsBranch(b: byte) { b == 0xE8 || b == 0xE9 }

  /** What is left of the mask `d` bytes after the opcode it was computed at. */
  function Faded(m: nat, d: nat): Mask
    requires d >= 1
  {
    if d > 3 then 0 else if d == 3 then m * 4 % 8 else if d == 2 then m * 2 % 8 else m % 8
  }

  /** The address is not converted: the opcodes before it say that this is no instruction, or its top byte
      that it is out of reach. */
  predicate Skips(m: Mask, s: seq<byte>)
    requires |s| > 4
  {
    (m != 0 && (!Allowed(m) || TestMsByte(s[4 - BitNum(m)]))) || !TestMsByte(s[4])
  }

  function Le32(s: seq<byte>): Word
    requires |s| == 4
  {
    var a: int, b: int, c: int, d: int := s[0], s[1], s[2], s[3];
    a + 0x100 * b + 0x1_0000 * c + 0x100_0000 * d
  }

  function Bytes32(x: Word): (s: seq<byte>)
    ensures |s| == 4 && Le32(s) == x
  {
    var y := x / 0x100;
    var z := y / 0x100;
    assert z / 0x100 < 0x100;
    [x % 0x100, y % 0x100, z % 0x100, z / 0x100]
  }

  // 2^(32 - 8 n)
  function Span(n: nat): nat
    requires n <= 3
  {
    if n == 0 then 0x1_0000_0000 else if n == 1 then 0x100_0000 else if n == 2 then 0x1_0000 else 0x100
  }

  // byte number 3 - n of a word
  function TopByte(x: Word, n: nat): nat
    requires n <= 3
  {
    x % Span(n) / (Span(n) / 0x100)
  }

  // the low 32 - 8 n bits of a word, inverted
  function FlipLow(x: Word, n: nat): (r: Word)
    requires n <= 3
    ensures r % Span(n) == Span(n) - 1 - x % Span(n)
  {
    var q, r := x / Span(n), x % Span(n);
    assert x == q * Span(n) + r;
    var y := q * Span(n) + (Span(n) - 1 - r);
    DivModIs(y, Span(n), q, Span(n) - 1 - r);
    FlipBelow(x, n);
    y
  }

  lemma FlipBelow(x: Word, n: nat)
    requires n <= 3
    ensures x / Span(n) * Span(n) + (Span(n) - 1 - x % Span(n)) < TWO32
  {
  }

  /** The address without the position of the next instruction, `base`. If the byte that decides about the
      mask would then look like a top byte, that is undone by converting the inverted address once more. */
  function Relative(m: Mask, base: Word, src: Word): Word {
    var dest := (src - base) % TWO32;
    if m == 0 || !TestMsByte(TopByte(dest, BitNum(m))) then dest
    else (FlipLow(dest, BitNum(m)) - base) % TWO32
  }

  // the 25 bits of an address, sign extended
  function SignExtend(x: Word): Word {
    if x % 0x200_0000 < 0x100_0000 then x % 0x200_0000 else x % 0x100_0000 + 0xFF00_0000
  }

  // the address bytes at position `pos`, converted
  function Convert(m: Mask, pos: nat, s: seq<byte>): (r: seq<byte>)
    requires |s| > 4
    ensures |r| == 4
  {
    Bytes32(SignExtend(Relative(m, (pos + 5) % TWO32, Le32(s[1..5]))))
  }

  /** The filtered bytes, the mask after them, and what could not be filtered yet. */
  datatype Filtered = Filtered(out: seq<byte>, mask: Mask, rest: seq<byte>)

  function Behind(o: seq<byte>, f: Filtered): Filtered { f.(out := o + f.out) }

  // what the filter does to the byte, or instruction, at the beginning of `s`
  function Advance(m: Mask, s: seq<byte>): (k: nat)
    requires |s| > 4
    ensures 0 < k <= |s|
  {
    if IsBranch(s[0]) && !Skips(m, s) then 5 else 1
  }

  function AfterFirst(m: Mask, s: seq<byte>): Mask
    requires |s| > 4
  {
    if !IsBranch(s[0]) then m * 2 % 8 else if Skips(m, s) then (m * 2 + 1) % 8 else 0
  }

  function FirstOut(m: Mask, pos: nat, s: seq<byte>): (o: seq<byte>)
    requires |s| > 4
    ensures |o| == Advance(m, s)
  {
    if IsBranch(s[0]) && !Skips(m, s) then [s[0]] + Convert(m, pos, s) else [s[0]]
  }

  /** The filter on values: one byte, or a converted instruction of five, at a time, as long as five bytes
      are in sight. */
  function Filter(m: Mask, pos: nat, s: seq<byte>): (f: Filtered)
    ensures |f.out| + |f.rest| == |s| && |f.rest| <= 4
    decreases |s|, SEAL + 1
  {
    SealedFilter(m, pos, s, SEAL)
  }

  // FilterIs says what this stands for.
  function SealedFilter(m: Mask, pos: nat, s: seq<byte>, seal: nat): (f: Filtered)
    ensures |f.out| + |f.rest| == |s| && |f.rest| <= 4
    decreases |s|, seal
  {
    if seal > 0 then SealedFilter(m, pos, s, seal - 1)
    else if |s| <= 4 then Filtered([], m, s)
    else
      var k := Advance(m, s);
      Behind(FirstOut(m, pos, s), Filter(AfterFirst(m, s), pos + k, s[k..]))
  }

  lemma FilterIs(m: Mask, pos: nat, s: seq<byte>)
    ensures Filter(m, pos, s) ==
      if |s| <= 4 then Filtered([], m, s)
      else
        var k := Advance(m, s);
        Behind(FirstOut(m, pos, s), Filter(AfterFirst(m, s), pos + k, s[k..]))
  {
    assert SealedFilter(m, pos, s, 1) == SealedFilter(m, pos, s, 0);
    assert SealedFilter(m, pos, s, 2) == SealedFilter(m, pos, s, 1);
    assert SealedFilter(m, pos, s, 3) == SealedFilter(m, pos, s, 2);
  }

  /** Slicing: filtering a piece, and then what was left of it together with the next piece, is filtering
      both at once. */
  lemma {:induction false} FilterSlices(m: Mask, pos: nat, s: seq<byte>, t: seq<byte>)
    ensures var f := Filter(m, pos, s);
      Filter(m, pos, s + t) == Behind(f.out, Filter(f.mask, pos + |f.out|, f.rest + t))
    decreases |s|
  {
    FilterIs(m, pos, s);
    if |s| <= 4 {
      BehindNothing(Filter(m, pos, s + t));
    } else {
      var k := Advance(m, s);
      FilterSlices(AfterFirst(m, s), pos + k, s[k..], t);
      SliceStep(m, pos, s, t);
    }
  }

  // the induction step: one byte or instruction in front
  lemma SliceStep(m: Mask, pos: nat, s: seq<byte>, t: seq<byte>)
    requires |s| > 4
    requires var k := Advance(m, s);
      var g := Filter(AfterFirst(m, s), pos + k, s[k..]);
      Filter(AfterFirst(m, s), pos + k, s[k..] + t) == Behind(g.out, Filter(g.mask, pos + k + |g.out|, g.rest + t))
    ensures var f := Filter(m, pos, s);
      Filter(m, pos, s + t) == Behind(f.out, Filter(f.mask, pos + |f.out|, f.rest + t))
  {
    var k, o := Advance(m, s), FirstOut(m, pos, s);
    var g := Filter(AfterFirst(m, s), pos + k, s[k..]);
    FilterIs(m, pos, s);
    FilterIs(m, pos, s + t);
    SameFirst(m, pos, s, t);
    assert (s + t)[k..] == s[k..] + t;
    BehindTwice(o, g.out, Filter(g.mask, pos + k + |g.out|, g.rest + t));
  }

  lemma SameFirst(m: Mask, pos: nat, s: seq<byte>, t: seq<byte>)
    requires |s| > 4
    ensures Advance(m, s + t) == Advance(m, s) && AfterFirst(m, s + t) == AfterFirst(m, s)
    ensures FirstOut(m, pos, s + t) == FirstOut(m, pos, s)
  {
    assert (s + t)[1..5] == s[1..5];
  }

  lemma BehindNothing(f: Filtered)
    ensures Behind([], f) == f
  {
    assert [] + f.out == f.out;
  }

  lemma BehindTwice(o: seq<byte>, o': seq<byte>, f: Filtered)
    ensures Behind(o, Behind(o', f)) == Behind(o + o', f)
  {
    assert o + (o' + f.out) == o + o' + f.out;
  }

  /** Why the inner loop of bcj_x86 ends: inverting and converting a second time gives the inverted source,
      and the byte that was tested there before is neither 00 nor FF. */
  lemma SecondPass(m: Mask, base: Word, src: Word)
    requires m != 0
    ensures var n := BitNum(m);
      var dest2 := (FlipLow((src - base) % TWO32, n) - base) % TWO32;
      dest2 % Span(n) == Span(n) - 1 - src % Span(n) && TopByte(dest2, n) == 255 - TopByte(src, n)
  {
    var n, d := BitNum(m), (src - base) % TWO32;
    var z, f := Span(n), FlipLow((src - base) % TWO32, BitNum(m));
    WordMod(src - base, n);
    WordMod(f - base, n);
    // modulo z: f == -1 - d, d == src - base
    var qf, qd, qs := f / z, d / z, (src - base) / z;
    assert f == qf * z + (z - 1 - d % z);
    assert src - base == qs * z + d % z;
    assert f - base == (z - 1 - src) + (qf + qs) * z by {
      Distribute(qf, qs, z);
    }
    ModMultiple(z - 1 - src, qf + qs, z);
    var q := src / z;
    assert z - 1 - src == (z - 1 - src % z) + (-q) * z;
    ModMultiple(z - 1 - src % z, -q, z);
    DivModIs(z - 1 - src % z, z, 0, z - 1 - src % z);
    TopInverted(src % z, n);
  }

  // the span of any number of bytes divides 2^32
  lemma WordMod(x: int, n: nat)
    requires n <= 3
    ensures x % TWO32 % Span(n) == x % Span(n)
  {
    var q, c := x / TWO32, TWO32 / Span(n);
    assert x == q * TWO32 + x % TWO32 && TWO32 == c * Span(n);
    Associate(q, c, Span(n));
    ModMultiple(x % TWO32, q * c, Span(n));
  }

  lemma TopInverted(x: nat, n: nat)
    requires n <= 3 && x < Span(n)
    ensures (Span(n) - 1 - x) / (Span(n) / 0x100) == 255 - x / (Span(n) / 0x100)
  {
    var u := Span(n) / 0x100;
    var q, r := x / u, x % u;
    assert x == q * u + r;
    Distribute(255 - q, q, u);
    DivModIs(Span(n) - 1 - x, u, 255 - q, u - 1 - r);
  }

  lemma TopByteIs(s: seq<byte>, n: nat)
    requires |s| == 4 && n <= 3
    ensures TopByte(Le32(s), n) == s[3 - n]
  {
    var x, u, high: int := Le32(s), Span(n) / 0x100, s[3 - n];
    var low, rest := LowPart(s, n), HighPart(s, n);
    DivModIs(x, Span(n), rest, high * u + low);
    DivModIs(high * u + low, u, high, low);
  }

  // the bytes below and above number 3 - n
  function LowPart(s: seq<byte>, n: nat): (r: nat)
    requires |s| == 4 && n <= 3
    ensures r < Span(n) / 0x100
  {
    var a: int, b: int, c: int := s[0], s[1], s[2];
    if n == 0 then a + 0x100 * b + 0x1_0000 * c else if n == 1 then a + 0x100 * b else if n == 2 then a else 0
  }

  function HighPart(s: seq<byte>, n: nat): nat
    requires |s| == 4 && n <= 3
  {
    var b: int, c: int, d: int := s[1], s[2], s[3];
    if n == 0 then 0 else if n == 1 then d else if n == 2 then c + 0x100 * d else b + 0x100 * c + 0x1_0000 * d
  }

  /** The filtered stream: the last bytes that could not be filtered are meant to stay as they are. */
  function Whole(data: seq<byte>): (r: seq<byte>)
    ensures |r| == |data|
  {
    var f := Filter(0, 0, data);
    f.out + f.rest
  }
}
