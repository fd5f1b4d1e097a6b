/**
 What the container machine does with several bytes at once: the steps the decoder takes in one go.
 */
module XzSteps {
  import opened Words
  import opened XzCrc32
  import opened XzFormat
  import opened XzMachine
  import opened XzGrammar

  // what is left of `s` after `k` bytes
  function Later(s: seq<byte>, k: nat): seq<byte> { if k <= |s| then s[k..] else [] }

  lemma LaterTwice(s: seq<byte>, j: nat, k: nat)
    requires j + k <= |s|
    ensures Later(Later(s, j), k) == Later(s, j + k)
  {
  }

  lemma VliLast(part: seq<byte>, t: seq<byte>)
    requires t != []
    ensures (part + t)[..|part + t| - 1] == part + t[..|t| - 1] && (part + t)[|part + t| - 1] == t[|t| - 1]
  {
  }

  lemma FeedOne(u: Setup, s: State, b: byte)
    ensures Feed(u, s, [b]) == Step(u, s, b)
  {
    FeedIs(u, s, [b]);
    FeedIs(u, Step(u, s, b), [b][1..]);
  }

  lemma FeedLast(u: Setup, s: State, t: seq<byte>)
    requires t != []
    ensures Feed(u, s, t) == Step(u, Feed(u, s, t[..|t| - 1]), t[|t| - 1])
  {
    var n := |t| - 1;
    assert t == t[..n] + [t[n]];
    FeedSlices(u, s, t[..n], [t[n]]);
    FeedOne(u, Feed(u, s, t[..n]), t[n]);
  }

  lemma FeedNothing(u: Setup, s: State)
    ensures Feed(u, s, []) == s
  {
    FeedIs(u, s, []);
  }

  lemma {:induction false} VliPartFed(u: Setup, sum: Sum, field: Field, part: seq<byte>, left: nat, hash: Hash,
                                      raw: seq<byte>, t: seq<byte>)
    requires Continuing(part + t) && |part + t| < VLI_BYTES_MAX
    ensures Feed(u, InIndex(sum, field, part, left, hash, raw), t) == InIndex(sum, field, part + t, left, hash, raw + t)
    decreases |t|
  {
    FeedIs(u, InIndex(sum, field, part, left, hash, raw), t);
    if t == [] {
      assert part + t == part && raw + t == raw;
    } else {
      OneOff(part, t);
      OneOff(raw, t);
      assert t[0] == (part + t)[|part|];
      VliPartFed(u, sum, field, part + [t[0]], left, hash, raw + [t[0]], t[1..]);
    }
  }

  /** dec_vli refuses the last byte of `t`. */
  lemma VliWrongFed(u: Setup, sum: Sum, field: Field, part: seq<byte>, left: nat, hash: Hash, raw: seq<byte>, t: seq<byte>)
    requires t != [] && Continuing(part + t[..|t| - 1]) && |part + t| <= VLI_BYTES_MAX
    requires VliNext(part + t[..|t| - 1], t[|t| - 1]) == Bad
    ensures Feed(u, InIndex(sum, field, part, left, hash, raw), t) == Failed
  {
    VliPartFed(u, sum, field, part, left, hash, raw, t[..|t| - 1]);
    FeedLast(u, InIndex(sum, field, part, left, hash, raw), t);
  }

  lemma {:induction false} ExpectPart(u: Setup, want: seq<byte>, next: State, t: seq<byte>)
    requires t <= want
    ensures Feed(u, Expect(want, next), t) == Expect(want[|t|..], next)
    decreases |t|
  {
    FeedIs(u, Expect(want, next), t);
    if t == [] {
      assert want[0..] == want;
    } else {
      assert want[1..][|t| - 1..] == want[|t|..];
      ExpectPart(u, want[1..], next, t[1..]);
    }
  }

  /** The last byte of `t` is not what was expected. */
  lemma ExpectWrong(u: Setup, want: seq<byte>, next: State, t: seq<byte>)
    requires t != [] && |t| <= |want| && t[..|t| - 1] == want[..|t| - 1] && t[|t| - 1] != want[|t| - 1]
    ensures Feed(u, Expect(want, next), t) == Failed
  {
    var n := |t| - 1;
    ExpectPart(u, want, next, t[..n]);
    FeedLast(u, Expect(want, next), t);
    assert want[n..][0] == want[n];
  }

  // `want` and then `more` are expected
  lemma {:induction false} ExpectJoined(u: Setup, want: seq<byte>, more: seq<byte>, next: State, t: seq<byte>)
    requires t <= want
    ensures Feed(u, Expect(want + more, next), t) == Expect(want[|t|..] + more, next)
  {
    ExpectPart(u, want + more, next, t);
    assert (want + more)[|t|..] == want[|t|..] + more;
  }

  lemma {:induction false} HeaderPartFed(u: Setup, sum: Sum, got: seq<byte>, t: seq<byte>)
    requires got != [] && |got + t| < HeaderSize(got[0])
    ensures Feed(u, InBlockHeader(sum, got), t) == InBlockHeader(sum, got + t)
    decreases |t|
  {
    FeedIs(u, InBlockHeader(sum, got), t);
    if t == [] {
      assert got + t == got;
    } else {
      OneOff(got, t);
      HeaderPartFed(u, sum, got + [t[0]], t[1..]);
    }
  }

  /** The filters eat several bytes, and the Block is not over before any of them. */
  lemma {:induction false} DataGoesOn(u: Setup, sum: Sum, size: nat, h: Header, eaten: seq<byte>, t: seq<byte>)
    requires Sane(u) && forall k :: 0 <= k < |t| ==> u.unpack(h.filters, eaten + t[..k]).status != Over
    ensures Feed(u, Data(u, sum, size, h, eaten), t) == Data(u, sum, size, h, eaten + t)
    decreases |t|
  {
    var s := Data(u, sum, size, h, eaten);
    FeedIs(u, s, t);
    if t == [] {
      assert eaten + t == eaten;
    } else {
      var b, e := t[0], eaten + [t[0]];
      assert eaten + t[..0] == eaten;
      DataStep(u, sum, size, h, eaten, b);
      forall k | 0 <= k < |t[1..]|
        ensures u.unpack(h.filters, e + t[1..][..k]).status != Over
      {
        assert e + t[1..][..k] == eaten + t[..k + 1];
      }
      DataGoesOn(u, sum, size, h, e, t[1..]);
      OneOff(eaten, t);
    }
  }

  lemma DataStep(u: Setup, sum: Sum, size: nat, h: Header, eaten: seq<byte>, b: byte)
    requires Sane(u) && u.unpack(h.filters, eaten).status != Over
    ensures Step(u, Data(u, sum, size, h, eaten), b) == Data(u, sum, size, h, eaten + [b])
  {
    assert u.unpack(h.filters, eaten).out <= u.unpack(h.filters, eaten + [b]).out;
  }

  /** A Block that breaks within the bytes offered. */
  lemma DataBreaks(u: Setup, sum: Sum, size: nat, h: Header, eaten: seq<byte>, t: seq<byte>)
    requires Sane(u) && Breaks(u, h.filters, eaten, t)
    ensures Feed(u, Data(u, sum, size, h, eaten), t) == Failed
  {
    var n: nat :| n <= |t| && BreaksAt(u, h.filters, eaten, t[..n]);
    forall k | 0 <= k < |t[..n]|
      ensures u.unpack(h.filters, eaten + t[..n][..k]).status != Over
    {
    }
    DataGoesOn(u, sum, size, h, eaten, t[..n]);
    FailsFurther(u, Data(u, sum, size, h, eaten), t, n);
  }

  ghost predicate BreaksAt(u: Setup, f: Filters, eaten: seq<byte>, t: seq<byte>) {
    && u.unpack(f, eaten + t).status == Broken
    && forall k :: 0 <= k < |t| ==> u.unpack(f, eaten + t[..k]).status != Over
  }

  /** Some of the bytes `t` break what was not over after `eaten`. */
  ghost predicate Breaks(u: Setup, f: Filters, eaten: seq<byte>, t: seq<byte>) {
    exists n: nat :: n <= |t| && BreaksAt(u, f, eaten, t[..n])
  }

  lemma FailsFurther(u: Setup, s: State, t: seq<byte>, n: nat)
    requires n <= |t|
    ensures Feed(u, s, t[..n]) == Failed ==> Feed(u, s, t) == Failed
  {
    FeedSlices(u, s, t[..n], t[n..]);
    assert t[..n] + t[n..] == t;
    NothingAfterFailure(u, t[n..]);
  }

  /** One byte of Index Padding. */
  lemma PaddingStep(u: Setup, sum: Sum, hash: Hash, raw: seq<byte>, b: byte)
    requires raw != [] && |raw| % 4 != 0
    ensures Step(u, AfterIndex(sum, hash, raw), b) == if b == 0 then AfterIndex(sum, hash, raw + [b]) else Failed
  {
    var k := Pad4(|raw|);
    assert k > 0 && Pad4(|raw| + 1) == k - 1;
    assert b == 0 ==> raw + Zeros(k) == raw + [b] + Zeros(k - 1);
    if sum.check <= 1 {
      var e := IndexEnd(sum.check, raw);
      assert e[0] == 0;
      if b == 0 {
        assert e[1..] == IndexEnd(sum.check, raw + [b]);
      }
    }
  }

  // the index padding is complete
  lemma PaddingDone(sum: Sum, hash: Hash, raw: seq<byte>)
    requires raw != [] && |raw| % 4 == 0 && sum.check <= 1
    ensures AfterIndex(sum, hash, raw) ==
      if hash != sum.hash || |raw| / 4 >= TWO32 then Failed
      else Expect(Le(Crc(raw, 0), 4) + StreamFooter(sum.check, |raw|), Finished(sum))
  {
    assert raw + Zeros(Pad4(|raw|)) == raw;
    assert Zeros(0) + Le(Crc(raw, 0), 4) + StreamFooter(sum.check, |raw|) == Le(Crc(raw, 0), 4) + StreamFooter(sum.check, |raw|);
  }

  // byte i of a CRC32
  lemma LeAt(x: nat)
    ensures Le(x, 4) == [x % 0x100, x / 0x100 % 0x100, x / 0x1_0000 % 0x100, x / 0x100_0000 % 0x100]
  {
    assert Le(x, 4) == [x % 0x100] + Le(x / 0x100, 3);
    assert Le(x / 0x100, 3) == [x / 0x100 % 0x100] + Le(x / 0x1_0000, 2);
    assert Le(x / 0x1_0000, 2) == [x / 0x1_0000 % 0x100] + Le(x / 0x100_0000, 1);
    assert Le(x / 0x100_0000, 1) == [x / 0x100_0000 % 0x100] + [];
  }

  // (x >> pos) & 0xFF
  function ByteOf(x: Word, pos: nat): byte {
    x / (if pos < 8 then 1 else if pos < 16 then 0x100 else if pos < 24 then 0x1_0000 else 0x100_0000) % 0x100
  }

  // `w` are the bytes that are left of `x` at `pos`, eight bits each
  ghost predicate BytesAt(x: Word, pos: nat, w: seq<byte>) {
    pos % 8 == 0 && 8 * |w| == 32 - pos && w == Later(Le(x, 4), pos / 8)
  }

  lemma BytesLeft(x: Word, pos: nat)
    requires pos % 8 == 0 && pos < 32
    ensures BytesAt(x, pos, Le(x, 4)[pos / 8..])
  {
  }

  lemma BytesOn(x: Word, pos: nat, w: seq<byte>, k: nat, b: byte)
    requires k < |w| && BytesAt(x, pos, w[k..]) && b == ByteOf(x, pos)
    ensures b == w[k] && BytesAt(x, pos + 8, w[k + 1..]) && (pos + 8 >= 32 <==> k + 1 == |w|)
  {
    ByteOfIs(x, pos);
    assert w[k + 1..] == w[k..][1..];
    assert (pos + 8) / 8 == pos / 8 + 1;
  }

  lemma ByteOfIs(x: Word, pos: nat)
    requires pos % 8 == 0 && pos < 32
    ensures ByteOf(x, pos) == Le(x, 4)[pos / 8]
  {
    LeAt(x);
    assert pos == 0 || pos == 8 || pos == 16 || pos == 24;
  }

  /** Other bytes than the ones expected. */
  lemma {:induction false} ExpectOther(u: Setup, want: seq<byte>, next: State, t: seq<byte>)
    requires |t| <= |want| && !(t <= want)
    ensures Feed(u, Expect(want, next), t) == Failed
    decreases |want|
  {
    FeedIs(u, Expect(want, next), t);
    if t[0] == want[0] {
      assert t == [t[0]] + t[1..] && want == [want[0]] + want[1..];
      ExpectOther(u, want[1..], next, t[1..]);
    } else {
      NothingAfterFailure(u, t[1..]);
    }
  }

  lemma {:induction false} ZerosJoin(m: nat, n: nat)
    ensures Zeros(m) + Zeros(n) == Zeros(m + n)
    decreases m
  {
    if m == 0 {
      assert Zeros(0) + Zeros(n) == Zeros(n);
    } else {
      ZerosJoin(m - 1, n);
      assert Zeros(m) + Zeros(n) == [0] + (Zeros(m - 1) + Zeros(n));
    }
  }

  /** The bytes of a Block Header, from the first on. */
  lemma BlockHeaderFed(u: Setup, sum: Sum, got: seq<byte>, t: seq<byte>)
    requires t != [] && (got + t)[0] != 0 && |got + t| <= HeaderSize((got + t)[0])
    ensures Feed(u, if got == [] then AtBlock(sum) else InBlockHeader(sum, got), t)
      == if |got + t| == HeaderSize((got + t)[0]) then AfterBlockHeader(u, sum, got + t) else InBlockHeader(sum, got + t)
  {
    if got == [] {
      assert got + t == t && [t[0]] + t[1..] == t;
      FeedIs(u, AtBlock(sum), t);
      if |t| == HeaderSize(t[0]) {
        HeaderFed(u, sum, [t[0]], t[1..]);
      } else {
        HeaderPartFed(u, sum, [t[0]], t[1..]);
      }
    } else if |got + t| == HeaderSize(got[0]) {
      HeaderFed(u, sum, got, t);
    } else {
      HeaderPartFed(u, sum, got, t);
    }
  }
}
