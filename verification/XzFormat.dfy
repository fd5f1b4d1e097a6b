/**
 The .xz container as bytes (the .xz File Format, sections 1.2, 2, 3 and 4): multibyte integers, Stream Header,
 Block Header, Index and Stream Footer. Only what compat/xz_dec_stream.c supports: no Check or CRC32, and
 one or two filters.
 */
module XzFormat {
  import opened Arithmetic
  import opened Common
  import opened Words
  import opened XzCrc32

  const TWO63: int := 0x8000_0000_0000_0000
  const TWO64: int := 0x1_0000_0000_0000_0000
  const VLI_BYTES_MAX: nat := 9

  /** The encoding of an integer, seven bits a byte, low bits first, no byte more than needed. */
  function VliBytes(x: nat): (s: seq<byte>)
    ensures s != []
    decreases x
  {
    if x < 128 then [x] else [x % 128 + 128] + VliBytes(x / 128)
  }

  function VliValue(p: seq<byte>): nat
    decreases |p|
  {
    if p == [] then 0 else p[0] % 128 + 128 * VliValue(p[1..])
  }

  predicate Continuing(p: seq<byte>) { forall i :: 0 <= i < |p| ==> p[i] >= 128 }

  datatype VliStep = More | Done(value: nat) | Bad

  /** What dec_vli makes of the next byte `b` when `part` came before it. */
  function VliNext(part: seq<byte>, b: byte): VliStep {
    if b < 128 then (if b == 0 && part != [] then Bad else Done(VliValue(part + [b])))
    else if |part| + 1 == VLI_BYTES_MAX then Bad
    else More
  }

  /** dec_vli accepts exactly the encodings of at most nine bytes. */
  lemma VliExact(part: seq<byte>, b: byte, x: nat)
    requires Continuing(part) && |part| < VLI_BYTES_MAX
    ensures VliNext(part, b) == Done(x) <==> part + [b] == VliBytes(x)
  {
    var p := part + [b];
    if p == VliBytes(x) {
      VliShape(x);
      assert p[|p| - 1] == b;
      VliMinimal(p);
    } else if VliNext(part, b) == Done(x) {
      VliMinimal(p);
    }
  }

  lemma {:induction false} VliShape(x: nat)
    ensures var s := VliBytes(x);
      && Continuing(s[..|s| - 1]) && s[|s| - 1] < 128 && (|s| > 1 ==> s[|s| - 1] != 0) && VliValue(s) == x
    decreases x
  {
    var s := VliBytes(x);
    if x >= 128 {
      VliShape(x / 128);
      var r := VliBytes(x / 128);
      assert s[1..] == r && s[|s| - 1] == r[|r| - 1];
      assert s[..|s| - 1] == [s[0]] + r[..|r| - 1];
    }
  }

  lemma {:induction false} VliMinimal(p: seq<byte>)
    requires p != [] && Continuing(p[..|p| - 1]) && p[|p| - 1] < 128 && (|p| > 1 ==> p[|p| - 1] != 0)
    ensures VliBytes(VliValue(p)) == p
    decreases |p|
  {
    if |p| == 1 {
      assert p[1..] == [];
      assert p == [p[0]];
    } else {
      var r := p[1..];
      assert p[..|p| - 1][0] >= 128;
      assert r[..|r| - 1] == p[..|p| - 1][1..];
      VliMinimal(r);
      NotZero(r);
      assert p == [p[0]] + r;
    }
  }

  lemma {:induction false} NotZero(p: seq<byte>)
    requires p != [] && p[|p| - 1] % 128 != 0
    ensures VliValue(p) > 0
    decreases |p|
  {
    if |p| > 1 {
      NotZero(p[1..]);
    }
  }

  // the integers of at most n bytes
  lemma {:induction false} VliLength(x: nat, n: nat)
    ensures |VliBytes(x)| <= n + 1 <==> x < Pow128(n + 1)
    decreases n
  {
    if n > 0 {
      VliLength(x / 128, n - 1);
      assert x < 128 * Pow128(n) <==> x / 128 < Pow128(n);
    } else {
      assert Pow128(1) == 128;
    }
  }

  /** Within an encoding of at most nine bytes, dec_vli goes on to the last byte. */
  lemma VliPiece(part: seq<byte>, rest: seq<byte>, x: nat)
    requires part + rest == VliBytes(x) && rest != [] && x < TWO63
    ensures VliNext(part, rest[0]) == if |rest| == 1 then Done(x) else More
  {
    VliShape(x);
    VliIn63Bits(x);
    var whole := VliBytes(x);
    assert part == whole[..|whole| - 1][..|part|];
    if |rest| == 1 {
      assert rest == [rest[0]];
      VliExact(part, rest[0], x);
    } else {
      assert rest[0] == whole[..|whole| - 1][|part|];
    }
  }

  function Pow128(n: nat): (p: nat)
    ensures p > 0
    decreases n
  {
    if n == 0 then 1 else 128 * Pow128(n - 1)
  }

  lemma VliIn63Bits(x: nat)
    ensures |VliBytes(x)| <= VLI_BYTES_MAX <==> x < TWO63
  {
    VliLength(x, 8);
    assert Pow128(3) == 0x20_0000 && Pow128(6) == 0x20_0000 * 0x20_0000;
    assert Pow128(9) == TWO63;
  }

  lemma {:induction false} VliAppend(p: seq<byte>, b: byte)
    ensures VliValue(p + [b]) == VliValue(p) + b % 128 * Pow128(|p|)
    decreases |p|
  {
    if p == [] {
      assert (p + [b])[1..] == [];
    } else {
      assert (p + [b])[1..] == p[1..] + [b];
      VliAppend(p[1..], b);
      assert 128 * (b % 128 * Pow128(|p| - 1)) == b % 128 * Pow128(|p|);
    }
  }

  /** No encoding is the beginning of another. */
  lemma {:induction false} VliPrefixFree(x: nat, s: seq<byte>, y: nat, t: seq<byte>)
    requires VliBytes(x) + s == VliBytes(y) + t
    ensures x == y && s == t
    decreases x
  {
    VliFirst(x, s);
    VliFirst(y, t);
    if x >= 128 {
      VliPrefixFree(x / 128, s, y / 128, t);
    }
  }

  lemma VliFirst(x: nat, s: seq<byte>)
    ensures var u := VliBytes(x) + s;
      if x < 128 then u[0] == x && u[1..] == s else u[0] == x % 128 + 128 && u[1..] == VliBytes(x / 128) + s
  {
    if x < 128 {
      assert VliBytes(x) == [x];
    } else {
      assert VliBytes(x) == [x % 128 + 128] + VliBytes(x / 128);
    }
  }

  // `n` bytes of a number, low byte first
  function Le(x: nat, n: nat): (s: seq<byte>)
    ensures |s| == n
    decreases n, x
  {
    if n == 0 then [] else [x % 0x100] + Le(x / 0x100, n - 1)
  }

  function LeValue(s: seq<byte>): nat
    decreases |s|
  {
    if s == [] then 0 else s[0] + 0x100 * LeValue(s[1..])
  }

  /** Comparing a number with bytes read as a number is comparing its bytes. */
  lemma {:induction false} LeSame(x: nat, s: seq<byte>, limit: nat)
    requires limit == Pow256(|s|)
    ensures LeValue(s) < limit
    ensures x < limit ==> (x == LeValue(s) <==> Le(x, |s|) == s)
    decreases |s|
  {
    if s != [] {
      LeSame(x / 0x100, s[1..], Pow256(|s| - 1));
      assert Le(x, |s|)[0] == x % 0x100 && Le(x, |s|)[1..] == Le(x / 0x100, |s| - 1);
      assert s == [s[0]] + s[1..];
      assert x < limit <==> x / 0x100 < Pow256(|s| - 1);
    }
  }

  function Zeros(n: nat): (s: seq<byte>)
    ensures |s| == n
    decreases n
  {
    if n == 0 then [] else [0] + Zeros(n - 1)
  }

  // how many bytes are missing to a multiple of four
  function Pad4(n: nat): (k: nat)
    ensures k < 4 && (n + k) % 4 == 0
  {
    if n % 4 == 0 then 0 else 4 - n % 4
  }

  /** The sums over all Blocks, or over all Records of the Index. */
  datatype Hash = Hash(unpadded: nat, uncompressed: nat, crc: Word)

  // struct xz_dec_hash in memory
  function HashBytes(h: Hash): seq<byte> { Le(h.unpadded, 8) + Le(h.uncompressed, 8) + Le(h.crc, 4) + Zeros(4) }

  function AddRecord(h: Hash, unpadded: nat, uncompressed: nat): Hash {
    var sums := Hash((h.unpadded + unpadded) % TWO64, (h.uncompressed + uncompressed) % TWO64, h.crc);
    sums.(crc := Crc(HashBytes(sums), h.crc))
  }

  /** Stream Header: magic bytes, Stream Flags and their CRC32. */
  function StreamHeader(check: nat): (s: seq<byte>)
    requires check <= 1
    ensures |s| == 12
  {
    [0xFD, '7' as int, 'z' as int, 'X' as int, 'Z' as int, 0, 0, check] + Le(Crc([0, check], 0), 4)
  }

  /** Stream Footer for an Index of `n` bytes. */
  function StreamFooter(check: nat, n: nat): (s: seq<byte>)
    requires check <= 1 && n >= 4
    ensures |s| == 12
  {
    var body := Le(n / 4, 4) + [0, check];
    Le(Crc(body, 0), 4) + body + ['Y' as int, 'Z' as int]
  }

  datatype Filters = Filters(bcj: Option<nat>, props: byte)
  datatype Header = Header(compressed: Option<nat>, uncompressed: Option<nat>, filters: Filters)

  function OptBytes(o: Option<nat>): seq<byte> { if o.Some? then VliBytes(o.value) else [] }

  function Flags(h: Header): byte {
    (if h.filters.bcj.Some? then 0x01 else 0) + (if h.compressed.Some? then 0x40 else 0) + (if h.uncompressed.Some? then 0x80 else 0)
  }

  function FilterBytes(f: Filters): seq<byte> {
    (if f.bcj.Some? then [f.bcj.value % 0x100, 0] else []) + [0x21, 1, f.props]
  }

  // everything behind the flags
  function Fields(h: Header, rest: seq<byte>): seq<byte> {
    OptBytes(h.compressed) + (OptBytes(h.uncompressed) + (FilterBytes(h.filters) + rest))
  }

  function FieldsSize(h: Header): nat { |OptBytes(h.compressed)| + |OptBytes(h.uncompressed)| + |FilterBytes(h.filters)| }

  predicate InRange(o: Option<nat>) { o.Some? ==> o.value < TWO63 }

  function HeaderSize(b: byte): nat {
    var n: int := b;
    (n + 1) * 4
  }

  // Header Padding and CRC32
  function HeaderEnd(t: seq<byte>, pad: nat): seq<byte>
    requires |t| >= 4
  {
    Zeros(pad) + Le(Crc(t[..|t| - 4], 0), 4)
  }

  /** `t` is a Block Header that says `h`. */
  predicate HeaderIs(t: seq<byte>, h: Header) {
    && |t| > 4 && t[0] != 0 && |t| == HeaderSize(t[0]) && t[1] == Flags(h)
    && InRange(h.compressed) && InRange(h.uncompressed) && (h.filters.bcj.Some? ==> h.filters.bcj.value < 0x100)
    && FieldsSize(h) + 6 <= |t|
    && t[2..] == Fields(h, HeaderEnd(t, |t| - 6 - FieldsSize(h)))
  }

  /** A Block Header says one thing only. */
  lemma HeaderUnique(t: seq<byte>, g: Header, h: Header)
    requires HeaderIs(t, g) && HeaderIs(t, h)
    ensures g == h
  {
    SameFields(g, HeaderEnd(t, |t| - 6 - FieldsSize(g)), h, HeaderEnd(t, |t| - 6 - FieldsSize(h)));
  }

  lemma SameFields(g: Header, a: seq<byte>, h: Header, b: seq<byte>)
    requires Fields(g, a) == Fields(h, b) && Flags(g) == Flags(h)
    requires (g.filters.bcj.Some? ==> g.filters.bcj.value < 0x100) && (h.filters.bcj.Some? ==> h.filters.bcj.value < 0x100)
    ensures g == h && a == b
  {
    var fa, fb := FilterBytes(g.filters) + a, FilterBytes(h.filters) + b;
    SameOpt(g.compressed, OptBytes(g.uncompressed) + fa, h.compressed, OptBytes(h.uncompressed) + fb);
    SameOpt(g.uncompressed, fa, h.uncompressed, fb);
    SameFilters(g.filters, a, h.filters, b);
  }

  lemma SameOpt(o: Option<nat>, s: seq<byte>, p: Option<nat>, t: seq<byte>)
    requires OptBytes(o) + s == OptBytes(p) + t && o.Some? == p.Some?
    ensures o == p && s == t
  {
    if o.Some? {
      VliPrefixFree(o.value, s, p.value, t);
    } else {
      assert [] + s == s && [] + t == t;
    }
  }

  lemma SameFilters(f: Filters, s: seq<byte>, g: Filters, t: seq<byte>)
    requires FilterBytes(f) + s == FilterBytes(g) + t && f.bcj.Some? == g.bcj.Some?
    requires (f.bcj.Some? ==> f.bcj.value < 0x100) && (g.bcj.Some? ==> g.bcj.value < 0x100)
    ensures f == g && s == t
  {
    var u, v := FilterBytes(f) + s, FilterBytes(g) + t;
    assert s == u[|FilterBytes(f)|..] && t == v[|FilterBytes(g)|..];
    if f.bcj.Some? {
      assert u[0] == f.bcj.value && v[0] == g.bcj.value && u[4] == f.props && v[4] == g.props;
    } else {
      assert u[2] == f.props && v[2] == g.props;
    }
  }
}
