/**
 What the x86 filter is for: it undoes the encoder of the format (section 5.3.2 of the .xz File Format), which
 makes the same addresses absolute. The encoder is part of this model only. The decoder sees bytes that the
 encoder has changed, so it has to be shown that it takes the same decisions.
 */
module BcjRoundTrip {
  import opened Words
  import opened Arithmetic
  import opened BcjX86

  // the address with the position of the next instruction
  function Absolute(m: Mask, base: Word, src: Word): Word {
    var dest := (src + base) % TWO32;
    if m == 0 || !TestMsByte(TopByte(dest, BitNum(m))) then dest
    else (FlipLow(dest, BitNum(m)) + base) % TWO32
  }

  function EncodedFirst(m: Mask, pos: nat, s: seq<byte>): (o: seq<byte>)
    requires |s| > 4
    ensures |o| == Advance(m, s) && o[0] == s[0]
  {
    if IsBranch(s[0]) && !Skips(m, s) then [s[0]] + Bytes32(SignExtend(Absolute(m, (pos + 5) % TWO32, Le32(s[1..5]))))
    else [s[0]]
  }

  /** The encoder. */
  function Encode(m: Mask, pos: nat, s: seq<byte>): (e: seq<byte>)
    ensures |e| == |s| && (s != [] ==> e[0] == s[0])
    decreases |s|
  {
    if |s| <= 4 then s
    else
      var k := Advance(m, s);
      EncodedFirst(m, pos, s) + Encode(AfterFirst(m, s), pos + k, s[k..])
  }

  /** What the decoder makes of an encoded stream is the stream. */
  lemma DecodesToOriginal(s: seq<byte>)
    ensures Whole(Encode(0, 0, s)) == s
  {
    RoundTrip(0, 0, s);
  }

  lemma {:induction false} RoundTrip(m: Mask, pos: nat, s: seq<byte>)
    ensures var f := Filter(m, pos, Encode(m, pos, s)); f.out + f.rest == s
    decreases |s|
  {
    var e := Encode(m, pos, s);
    FilterIs(m, pos, e);
    if |s| > 4 {
      var k, m' := Advance(m, s), AfterFirst(m, s);
      FirstUndone(m, pos, s);
      EncodeStep(m, pos, s);
      RoundTrip(m', pos + k, s[k..]);
      Prepended(s, k, Filter(m', pos + k, e[k..]));
    }
  }

  lemma Prepended(s: seq<byte>, k: nat, g: Filtered)
    requires k <= |s| && g.out + g.rest == s[k..]
    ensures var f := Behind(s[..k], g); f.out + f.rest == s
  {
    assert s[..k] + g.out + g.rest == s[..k] + (g.out + g.rest);
  }

  lemma EncodeStep(m: Mask, pos: nat, s: seq<byte>)
    requires |s| > 4
    ensures var k, e := Advance(m, s), Encode(m, pos, s);
      e[..k] == EncodedFirst(m, pos, s) && e[k..] == Encode(AfterFirst(m, s), pos + k, s[k..])
  {
  }

  // the decoder takes the decision of the encoder, and undoes it
  lemma FirstUndone(m: Mask, pos: nat, s: seq<byte>)
    requires |s| > 4
    ensures var e := Encode(m, pos, s);
      && Advance(m, e) == Advance(m, s) && AfterFirst(m, e) == AfterFirst(m, s)
      && FirstOut(m, pos, e) == s[..Advance(m, s)]
  {
    var e, o := Encode(m, pos, s), EncodedFirst(m, pos, s);
    EncodeStep(m, pos, s);
    if IsBranch(s[0]) {
      if Skips(m, s) {
        MarkedKept(m, pos, s);
        MarkedKept(AfterFirst(m, s), pos + 1, s[1..]);
        SameSkip(m, s, e);
      } else {
        ConversionUndone(m, pos, s);
        assert o == e[..5] && o[1..5] == e[1..5] && o[4] == e[4] && o[4 - BitNum(m)] == e[4 - BitNum(m)];
      }
    }
  }

  lemma SameSkip(m: Mask, s: seq<byte>, e: seq<byte>)
    requires |s| == |e| > 4 && Skips(m, s)
    requires MarksKept(m, s, e) && MarksKept((m * 2 + 1) % 8, s[1..], e[1..])
    ensures Skips(m, e)
  {
  }

  /** Bit j of the mask stands for an instruction that was not converted and whose top byte is number 3 - j
      from here. It is 00 or FF in `e` when it is in `s`. */
  predicate MarksKept(m: Mask, s: seq<byte>, e: seq<byte>)
    requires |s| == |e|
  {
    && (m in {1, 3, 5, 7} && |s| > 3 ==> TestMsByte(e[3]) == TestMsByte(s[3]))
    && (m in {2, 3, 6, 7} && |s| > 2 ==> TestMsByte(e[2]) == TestMsByte(s[2]))
    && (m in {4, 5, 6, 7} && |s| > 1 ==> TestMsByte(e[1]) == TestMsByte(s[1]))
  }

  /** Nothing that is converted from here on changes what the decoder looks at to tell which instructions
      were not converted. */
  lemma {:induction false} MarkedKept(m: Mask, pos: nat, s: seq<byte>)
    ensures MarksKept(m, s, Encode(m, pos, s))
    decreases |s|
  {
    if |s| > 4 {
      var k, m', e := Advance(m, s), AfterFirst(m, s), Encode(m, pos, s);
      EncodeStep(m, pos, s);
      if k == 5 {
        ConversionUndone(m, pos, s);
        var o := EncodedFirst(m, pos, s);
        assert o == e[..5] && o[4 - BitNum(m)] == e[4 - BitNum(m)];
        ConvertedKept(m, s, e);
      } else {
        MarkedKept(m', pos + 1, s[1..]);
        MarkedLater(m, m', s, e);
      }
    }
  }

  lemma ConvertedKept(m: Mask, s: seq<byte>, e: seq<byte>)
    requires |s| == |e| > 4 && !Skips(m, s) && (m != 0 ==> !TestMsByte(e[4 - BitNum(m)]))
    ensures MarksKept(m, s, e)
  {
  }

  lemma MarkedLater(m: Mask, m': Mask, s: seq<byte>, e: seq<byte>)
    requires |s| == |e| > 4 && s[0] == e[0] && (m' == m * 2 % 8 || m' == (m * 2 + 1) % 8)
    requires e[1] == s[1] && MarksKept(m', s[1..], e[1..])
    ensures MarksKept(m, s, e)
  {
  }

  // one converted address
  lemma ConversionUndone(m: Mask, pos: nat, s: seq<byte>)
    requires |s| > 4 && IsBranch(s[0]) && !Skips(m, s)
    ensures var o := EncodedFirst(m, pos, s);
      && !Skips(m, o) && (m != 0 ==> !TestMsByte(o[4 - BitNum(m)]))
      && [o[0]] + Convert(m, pos, o) == s[..5]
  {
    var src, base, o := Le32(s[1..5]), (pos + 5) % TWO32, EncodedFirst(m, pos, s);
    var x := SignExtend(Absolute(m, base, src));
    TopByteIs(s[1..5], 0);
    TopByteIs(s[1..5], BitNum(m));
    AddressUndone(m, base, src);
    assert o[1..5] == Bytes32(x);
    TopByteIs(o[1..5], 0);
    TopByteIs(o[1..5], BitNum(m));
    BytesOf(s[1..5]);
  }

  lemma BytesOf(s: seq<byte>)
    requires |s| == 4
    ensures Bytes32(Le32(s)) == s
  {
    var x, a: int, b: int, c: int, d: int := Le32(s), s[0], s[1], s[2], s[3];
    DivModIs(x, 0x100, b + 0x100 * c + 0x1_0000 * d, a);
  }

  // Addresses count modulo 2^25.
  predicate Same25(x: int, y: int) { x % 0x200_0000 == y % 0x200_0000 }

  lemma SignExtended(x: Word)
    ensures Same25(SignExtend(x), x) && TestMsByte(TopByte(SignExtend(x), 0))
    ensures TestMsByte(TopByte(x, 0)) ==> SignExtend(x) == x
  {
    var r := x % 0x200_0000;
    assert x == x / 0x200_0000 * 0x200_0000 + r;
    if TestMsByte(TopByte(x, 0)) {
      assert x / 0x100_0000 == 0 || x / 0x100_0000 == 255;
    }
  }

  lemma SameLow(x: Word, y: Word, n: nat)
    requires Same25(x, y) && 1 <= n <= 3
    ensures x % Span(n) == y % Span(n) && TopByte(x, n) == TopByte(y, n)
  {
    ModThrough(x, n);
    ModThrough(y, n);
  }

  lemma ModThrough(x: int, n: nat)
    requires 1 <= n <= 3
    ensures x % 0x200_0000 % Span(n) == x % Span(n)
  {
    var q, c := x / 0x200_0000, 0x200_0000 / Span(n);
    assert x == x % 0x200_0000 + q * 0x200_0000 && 0x200_0000 == c * Span(n);
    Associate(q, c, Span(n));
    ModMultiple(x % 0x200_0000, q * c, Span(n));
  }

  lemma SameFlipped(x: Word, y: Word, n: nat)
    requires Same25(x, y) && 1 <= n <= 3
    ensures Same25(FlipLow(x, n), FlipLow(y, n))
  {
    SameLow(x, y, n);
    FlipIs(x, n);
    FlipIs(y, n);
    SameSum(x, y, Span(n) - 1 - 2 * (x % Span(n)));
  }

  lemma FlipIs(x: Word, n: nat)
    requires n <= 3
    ensures FlipLow(x, n) == x + Span(n) - 1 - 2 * (x % Span(n))
    ensures FlipLow(FlipLow(x, n), n) == x
  {
    var z := Span(n);
    assert x == x / z * z + x % z;
    var y := FlipLow(x, n);
    assert y == y / z * z + y % z;
  }

  lemma SameSum(x: int, y: int, d: int)
    requires Same25(x, y)
    ensures Same25(x + d, y + d) && Same25((x + d) % TWO32, y + d)
  {
    assert x + d == (y + d) + (x / 0x200_0000 - y / 0x200_0000) * 0x200_0000;
    ModMultiple(y + d, x / 0x200_0000 - y / 0x200_0000, 0x200_0000);
    var q := (x + d) / TWO32;
    assert x + d == (x + d) % TWO32 + q * 128 * 0x200_0000;
    ModMultiple((x + d) % TWO32, q * 128, 0x200_0000);
  }

  lemma AddressUndone(m: Mask, base: Word, src: Word)
    requires TestMsByte(TopByte(src, 0)) && (m != 0 ==> !TestMsByte(TopByte(src, BitNum(m))))
    ensures var x := SignExtend(Absolute(m, base, src));
      && TestMsByte(TopByte(x, 0)) && (m != 0 ==> !TestMsByte(TopByte(x, BitNum(m))))
      && SignExtend(Relative(m, base, x)) == src
  {
    var y := Absolute(m, base, src);
    SignExtended(y);
    RelativeIsSame(m, base, src, SignExtend(y));
    if m != 0 {
      SameLow(SignExtend(y), y, BitNum(m));
    }
    ExtendedBack(Relative(m, base, SignExtend(y)), src);
  }

  // a sign-extended address is known by its low 25 bits
  lemma ExtendedBack(x: Word, src: Word)
    requires Same25(x, src) && TestMsByte(TopByte(src, 0))
    ensures SignExtend(x) == src
  {
    SignExtended(src);
    ModThrough24(x);
    ModThrough24(src);
  }

  lemma ModThrough24(x: int)
    ensures x % 0x200_0000 % 0x100_0000 == x % 0x100_0000
  {
    ModThrough(x, 1);
  }

  lemma RelativeIsSame(m: Mask, base: Word, src: Word, x: Word)
    requires m != 0 ==> !TestMsByte(TopByte(src, BitNum(m)))
    requires Same25(x, Absolute(m, base, src))
    ensures Same25(Relative(m, base, x), src)
    ensures m != 0 ==> !TestMsByte(TopByte(Absolute(m, base, src), BitNum(m)))
  {
    var n, dest, back := BitNum(m), (src + base) % TWO32, (x - base) % TWO32;
    if m == 0 || !TestMsByte(TopByte(dest, n)) {
      BackAgain(x, src, base);
      if m != 0 {
        SameLow(back, src, n);
      }
    } else {
      // two rounds, and two rounds back
      var f := FlipLow(dest, n);
      SecondRound(m, base, src);
      BackAgain(x, f, base);
      SameLow(back, f, n);
      TopFlipped(dest, n);
      SameFlipped(back, f, n);
      FlipIs(dest, n);
      BackAgain(FlipLow(back, n), src, base);
    }
  }

  // from (y + b) back to y
  lemma BackAgain(x: Word, y: Word, b: Word)
    requires Same25(x, (y + b) % TWO32)
    ensures Same25((x - b) % TWO32, y)
  {
    SameSum(y, y, b);
    SameSum(x, y + b, 0 - b);
  }

  lemma TopFlipped(x: Word, n: nat)
    requires n <= 3
    ensures TopByte(FlipLow(x, n), n) == 255 - TopByte(x, n)
  {
    TopInverted(x % Span(n), n);
  }

  // the inner loop ends in the encoder too
  lemma SecondRound(m: Mask, base: Word, src: Word)
    requires m != 0
    ensures TopByte((FlipLow((src + base) % TWO32, BitNum(m)) + base) % TWO32, BitNum(m)) == 255 - TopByte(src, BitNum(m))
  {
    var b: Word := (0 - base) % TWO32;
    SecondPass(m, b, src);
    Negated(src, base);
    Negated(FlipLow((src + base) % TWO32, BitNum(m)), base);
  }

  lemma Negated(x: Word, base: Word)
    ensures (x - (0 - base) % TWO32) % TWO32 == (x + base) % TWO32
  {
  }
}
