/**
 The .xz File Format written out byte by byte (sections 1.2 and 2 to 4), as far as compat/xz_dec_stream.c supports it,
 and the proof that the container decoder accepts exactly that. Sizes are counted from the bytes, and nothing here
 is taken from the decoder's own state.
 */
module XzReference {
  import opened Common
  import opened Words
  import opened Arithmetic
  import opened XzCrc32
  import F = XzFormat
  import opened XzMachine
  import G = XzGrammar

  // ---- numbers

  // four bytes, lowest first
  function Four(x: Word): (s: seq<byte>)
    ensures |s| == 4
  {
    [x % 0x100, x / 0x100 % 0x100, x / 0x1_0000 % 0x100, x / 0x100_0000]
  }

  function Eight(x: nat): (s: seq<byte>)
    requires x < F.TWO64
  {
    Four(x % TWO32) + Four(x / TWO32)
  }

  // how many groups of seven bits a number has
  function Groups(x: nat): (n: nat)
    ensures n >= 1
    decreases x
  {
    if x < 0x80 then 1 else 1 + Groups(x / 0x80)
  }

  /** A multibyte integer: byte i holds the bits from number 7 i on, and its top bit says that there are more. */
  function Multibyte(x: nat): (s: seq<byte>)
    ensures |s| == Groups(x)
  {
    var n := Groups(x);
    seq(n, i requires 0 <= i < n => if i + 1 < n then x / Pow2(7 * i) % 0x80 + 0x80 else x / Pow2(7 * i) % 0x80)
  }

  // up to three zeros, to make a multiple of four of n bytes
  function Padding(n: nat): (s: seq<byte>)
    ensures (n + |s|) % 4 == 0 && |s| < 4
  {
    if n % 4 == 1 then [0, 0, 0] else if n % 4 == 2 then [0, 0] else if n % 4 == 3 then [0] else []
  }

  function Checksum(s: seq<byte>): seq<byte> { Four(Crc(s, 0)) }

  // ---- the parts of a stream

  function FlagBytes(check: nat): seq<byte>
    requires check <= 1
  {
    [0, check]
  }

  function Head(check: nat): seq<byte>
    requires check <= 1
  {
    [0xFD, 0x37, 0x7A, 0x58, 0x5A, 0x00] + FlagBytes(check) + Checksum(FlagBytes(check))
  }

  function Size(o: Option<nat>): seq<byte> { if o.Some? then Multibyte(o.value) else [] }

  function FilterFlags(f: F.Filters): seq<byte>
    requires f.bcj.Some? ==> f.bcj.value < 0x100
  {
    if f.bcj.Some? then [f.bcj.value, 0x00, 0x21, 0x01, f.props] else [0x21, 0x01, f.props]
  }

  /** A Block Header with `pad` bytes of Header Padding. */
  ghost predicate BlockHead(t: seq<byte>, h: F.Header, pad: nat) {
    && |t| >= 8 && |t| % 4 == 0 && |t| / 4 - 1 == t[0]
    && t[1] == (if h.filters.bcj.Some? then 0x01 else 0x00) + (if h.compressed.Some? then 0x40 else 0x00)
               + (if h.uncompressed.Some? then 0x80 else 0x00)
    && (h.compressed.Some? ==> h.compressed.value < 0x8000_0000_0000_0000)
    && (h.uncompressed.Some? ==> h.uncompressed.value < 0x8000_0000_0000_0000)
    && (h.filters.bcj.Some? ==> h.filters.bcj.value < 0x100)
    && t == [t[0], t[1]] + Size(h.compressed) + Size(h.uncompressed) + FilterFlags(h.filters) + seq(pad, _ => 0x00)
            + Checksum(t[..|t| - 4])
  }

  /** A Block: a header that says how its data is filtered, and perhaps the sizes, the data, of which all is needed to
      get to the end of the contents, padding, and the check. */
  ghost predicate BlockOk(u: Setup, b: G.Block) {
    && (exists pad :: BlockHead(b.head, b.h, pad))
    && (b.h.filters.bcj.Some? ==> u.knowsBcj(b.h.filters.bcj.value)) && u.takesProps(b.h.filters.props)
    && u.unpack(b.h.filters, b.data) == Unpacked(b.out, Over)
    && (forall k :: 0 <= k < |b.data| ==> u.unpack(b.h.filters, b.data[..k]).status == Going)
    && (b.h.compressed.Some? ==> b.h.compressed.value == |b.data|)
    && (b.h.uncompressed.Some? ==> b.h.uncompressed.value == |b.out|)
  }

  function BlockBytes(check: nat, b: G.Block): seq<byte> {
    b.head + b.data + Padding(|b.data|) + if check == 1 then Checksum(b.out) else []
  }

  function Blocks(check: nat, bs: seq<G.Block>): seq<byte> {
    if bs == [] then [] else BlockBytes(check, bs[0]) + Blocks(check, bs[1..])
  }

  function Records(rs: seq<G.Record>): seq<byte> {
    if rs == [] then [] else Multibyte(rs[0].unpadded) + Multibyte(rs[0].uncompressed) + Records(rs[1..])
  }

  function Index(rs: seq<G.Record>): seq<byte> {
    var fields := [0x00] + Multibyte(|rs|) + Records(rs);
    var padded := fields + Padding(|fields|);
    padded + Checksum(padded)
  }

  // `backward` is the size of the Index in units of four bytes, less one
  function Foot(check: nat, backward: Word): seq<byte>
    requires check <= 1
  {
    var body := Four(backward) + FlagBytes(check);
    Checksum(body) + body + [0x59, 0x5A]
  }

  // ---- what has to agree

  /** What a Block takes in the stream without its padding, and its contents. */
  function SizeOf(check: nat, b: G.Block): G.Record {
    G.Record(|BlockBytes(check, b)| - |Padding(|b.data|)|, |b.out|)
  }

  function Sizes(check: nat, bs: seq<G.Block>): (rs: seq<G.Record>)
    ensures |rs| == |bs|
  {
    if bs == [] then [] else [SizeOf(check, bs[0])] + Sizes(check, bs[1..])
  }

  /** The decoder does not keep the sizes themselves, but their sums modulo 2^64 and a checksum of all the sums. */
  function Digest(d: F.Hash, rs: seq<G.Record>): F.Hash
    decreases |rs|
  {
    if rs == [] then d else Digest(Add(d, rs[0]), rs[1..])
  }

  function Add(d: F.Hash, r: G.Record): F.Hash {
    var a, b := (d.unpadded + r.unpadded) % F.TWO64, (d.uncompressed + r.uncompressed) % F.TWO64;
    F.Hash(a, b, Crc(Eight(a) + Eight(b) + Four(d.crc) + [0, 0, 0, 0], d.crc))
  }

  ghost predicate Agree(check: nat, bs: seq<G.Block>, rs: seq<G.Record>) {
    && |rs| == |bs| < 0x8000_0000_0000_0000
    && (forall i :: 0 <= i < |rs| ==> rs[i].unpadded < 0x8000_0000_0000_0000 && rs[i].uncompressed < 0x8000_0000_0000_0000)
    && Digest(F.Hash(0, 0, 0), rs) == Digest(F.Hash(0, 0, 0), Sizes(check, bs))
  }

  function Contents(bs: seq<G.Block>): seq<byte> {
    if bs == [] then [] else bs[0].out + Contents(bs[1..])
  }

  ghost predicate BlocksOk(u: Setup, bs: seq<G.Block>) { forall i :: 0 <= i < |bs| ==> BlockOk(u, bs[i]) }

  /** `t` is a stream with these Blocks. */
  ghost predicate Stream(u: Setup, check: nat, bs: seq<G.Block>, rs: seq<G.Record>, t: seq<byte>) {
    check <= 1 && BlocksOk(u, bs) && Agree(check, bs, rs) && Laid(check, bs, rs, t)
  }

  ghost predicate Laid(check: nat, bs: seq<G.Block>, rs: seq<G.Record>, t: seq<byte>)
    requires check <= 1
  {
    && |Index(rs)| >= 4 && |Index(rs)| / 4 - 1 < TWO32
    && t == Head(check) + Blocks(check, bs) + Index(rs) + Foot(check, |Index(rs)| / 4 - 1)
  }

  /** The decoder accepts exactly the streams of the format whose Index agrees with their Blocks, and decodes them to
      their contents. */
  lemma AcceptsFormat(u: Setup, t: seq<byte>, contents: seq<byte>)
    requires Sane(u)
    ensures (exists end :: Ends(u, InStreamHeader([]), t, end) && end.out == contents)
      <==> exists check, bs, rs :: Stream(u, check, bs, rs, t) && contents == Contents(bs)
  {
    if end :| Ends(u, InStreamHeader([]), t, end) && end.out == contents {
      G.AcceptsStreams(u, t, end);
      var check, bs, rs :| G.Stream(u, check, bs, rs, t, end);
      assert end == G.SumOf(Sum(check, 0, NO_HASH, []), bs);
      StreamIs(u, check, bs, rs, t, end);
    }
    if check, bs, rs :| Stream(u, check, bs, rs, t) && contents == Contents(bs) {
      var end := G.SumOf(Sum(check, 0, NO_HASH, []), bs);
      StreamIs(u, check, bs, rs, t, end);
      G.AcceptsStreams(u, t, end);
    }
  }

  // ---- the decoder's own functions are these

  lemma FourIs(x: Word)
    ensures Four(x) == F.Le(x, 4)
  {
    var y := x / 0x100;
    var z := y / 0x100;
    LeOne(x, 3);
    LeOne(y, 2);
    LeOne(z, 1);
    LeOne(z / 0x100, 0);
    assert y / 0x100 == x / 0x1_0000 && z / 0x100 == x / 0x100_0000 && z / 0x100 < 0x100;
  }

  lemma {:induction false} LeOne(x: nat, n: nat)
    ensures F.Le(x, n + 1) == [x % 0x100] + F.Le(x / 0x100, n) && F.Le(x, 0) == []
  {
  }

  lemma {:induction false} LeParts(x: nat, m: nat, n: nat, low: nat, high: nat)
    requires low < Pow256(m) && x == high * Pow256(m) + low
    ensures F.Le(x, m + n) == F.Le(low, m) + F.Le(high, n)
    decreases m
  {
    LeOne(low, 0);
    if m > 0 {
      var q := Pow256(m - 1);
      Digits(x, q, low, high);
      LeParts(x / 0x100, m - 1, n, low / 0x100, high);
      LeOne(x, m + n - 1);
      LeOne(low, m - 1);
    }
  }

  lemma Digits(x: nat, q: nat, low: nat, high: nat)
    requires low < 0x100 * q && x == high * (0x100 * q) + low
    ensures x % 0x100 == low % 0x100 && x / 0x100 == high * q + low / 0x100 && low / 0x100 < q
  {
    Associate(high, q, 0x100);
    DivModIs(x, 0x100, high * q + low / 0x100, low % 0x100);
  }

  lemma EightIs(x: nat)
    requires x < F.TWO64
    ensures Eight(x) == F.Le(x, 8)
  {
    assert Pow256(2) == 0x1_0000;
    LeParts(x, 4, 4, x % TWO32, x / TWO32);
    FourIs(x % TWO32);
    FourIs(x / TWO32);
  }

  lemma {:induction false} MultibyteIs(x: nat)
    ensures Multibyte(x) == F.VliBytes(x)
    decreases x
  {
    var s := Multibyte(x);
    assert Pow2(7 * 0) == 1;
    if x >= 0x80 {
      MultibyteIs(x / 0x80);
      var r := Multibyte(x / 0x80);
      forall i | 0 <= i < |r|
        ensures s[i + 1] == r[i]
      {
        Group(x, i);
      }
      assert s == [x % 0x80 + 0x80] + r;
    }
  }

  lemma Group(x: nat, i: nat)
    ensures x / Pow2(7 * (i + 1)) == x / 0x80 / Pow2(7 * i)
  {
    var q := Pow2(7 * i);
    assert Pow2(7) == 0x80;
    Pow2Add(7, 7 * i);
    var y, h, r := x / 0x80, x / 0x80 / q, x / 0x80 % q;
    assert y == h * q + r && x == y * 0x80 + x % 0x80;
    Associate(0x80, h, q);
    DivModIs(x, 0x80 * q, h, 0x80 * r + x % 0x80);
  }

  lemma {:induction false} ZerosAre(n: nat)
    ensures F.Zeros(n) == seq(n, _ => 0)
  {
    if n > 0 {
      ZerosAre(n - 1);
    }
  }

  lemma PaddingIs(n: nat)
    ensures Padding(n) == F.Zeros(F.Pad4(n))
  {
    ZerosAre(F.Pad4(n));
  }

  lemma HeadIs(check: nat)
    requires check <= 1
    ensures Head(check) == F.StreamHeader(check)
  {
    FourIs(Crc([0, check], 0));
  }

  lemma FootIs(check: nat, n: nat)
    requires check <= 1 && 4 <= n && n / 4 < TWO32
    ensures Foot(check, n / 4) == F.StreamFooter(check, n)
  {
    FourIs(n / 4);
    FourIs(Crc(Four(n / 4) + [0, check], 0));
  }

  lemma BlockHeadIs(t: seq<byte>, h: F.Header)
    ensures F.HeaderIs(t, h) <==> exists pad :: BlockHead(t, h, pad)
  {
    if F.HeaderIs(t, h) {
      HeadSays(t, h, |t| - 6 - F.FieldsSize(h));
    }
    if pad :| BlockHead(t, h, pad) {
      HeadSays(t, h, pad);
    }
  }

  lemma HeadSays(t: seq<byte>, h: F.Header, pad: nat)
    ensures F.HeaderIs(t, h) && pad == |t| - 6 - F.FieldsSize(h) <==> BlockHead(t, h, pad)
  {
    if |t| > 4 && (h.filters.bcj.Some? ==> h.filters.bcj.value < 0x100) {
      FieldsAre(t, h, pad);
    }
  }

  lemma FieldsAre(t: seq<byte>, h: F.Header, pad: nat)
    requires |t| > 4 && (h.filters.bcj.Some? ==> h.filters.bcj.value < 0x100)
    ensures F.FieldsSize(h) == |Size(h.compressed)| + |Size(h.uncompressed)| + |FilterFlags(h.filters)|
    ensures t[2..] == F.Fields(h, F.HeaderEnd(t, pad))
      <==> t == [t[0], t[1]] + Size(h.compressed) + Size(h.uncompressed) + FilterFlags(h.filters)
                + seq(pad, _ => 0x00) + Checksum(t[..|t| - 4])
  {
    var a, b, c := Size(h.compressed), Size(h.uncompressed), FilterFlags(h.filters);
    var z, d := seq(pad, _ => 0), Checksum(t[..|t| - 4]);
    SizeIs(h.compressed);
    SizeIs(h.uncompressed);
    ZerosAre(pad);
    FourIs(Crc(t[..|t| - 4], 0));
    assert c == F.FilterBytes(h.filters);
    assert F.HeaderEnd(t, pad) == z + d;
    Apart(t, a, b, c, z, d);
    assert F.Fields(h, F.HeaderEnd(t, pad)) == a + (b + (c + (z + d)));
  }

  lemma SizeIs(o: Option<nat>)
    ensures Size(o) == F.OptBytes(o)
  {
    if o.Some? {
      MultibyteIs(o.value);
    }
  }

  lemma Apart(t: seq<byte>, a: seq<byte>, b: seq<byte>, c: seq<byte>, z: seq<byte>, d: seq<byte>)
    requires |t| >= 2
    ensures t == [t[0], t[1]] + a + b + c + z + d <==> t[2..] == a + (b + (c + (z + d)))
  {
    assert t == [t[0], t[1]] + t[2..];
    assert [t[0], t[1]] + a + b + c + z + d == [t[0], t[1]] + (a + (b + (c + (z + d))));
    assert ([t[0], t[1]] + (a + (b + (c + (z + d)))))[2..] == a + (b + (c + (z + d)));
  }

  lemma BlockIs(u: Setup, b: G.Block)
    ensures BlockOk(u, b) <==> G.BlockOk(u, b)
  {
    BlockHeadIs(b.head, b.h);
  }

  lemma BlockBytesIs(check: nat, b: G.Block)
    ensures BlockBytes(check, b) == G.BlockBytes(check, b)
    ensures SizeOf(check, b) == G.Record(Unpadded(check, |b.head|, |b.data|), |b.out|)
  {
    PaddingIs(|b.data|);
    FourIs(Crc(b.out, 0));
  }

  lemma {:induction false} BlocksAre(check: nat, bs: seq<G.Block>)
    ensures Blocks(check, bs) == G.BlocksBytes(check, bs)
    decreases |bs|
  {
    if bs != [] {
      BlockBytesIs(check, bs[0]);
      BlocksAre(check, bs[1..]);
    }
  }

  lemma AllOk(u: Setup, bs: seq<G.Block>)
    ensures BlocksOk(u, bs) <==> G.BlocksOk(u, bs)
  {
    forall i | 0 <= i < |bs|
      ensures BlockOk(u, bs[i]) <==> G.BlockOk(u, bs[i])
    {
      BlockIs(u, bs[i]);
    }
  }

  lemma {:induction false} RecordsAre(rs: seq<G.Record>)
    ensures Records(rs) == G.RecordsBytes(rs)
    decreases |rs|
  {
    if rs != [] {
      MultibyteIs(rs[0].unpadded);
      MultibyteIs(rs[0].uncompressed);
      RecordsAre(rs[1..]);
    }
  }

  lemma IndexIs(check: nat, rs: seq<G.Record>)
    requires check <= 1
    ensures var n := |Index(rs)| / 4 - 1;
      && |Index(rs)| >= 4 && n == (|G.IndexBytes(rs)| + F.Pad4(|G.IndexBytes(rs)|)) / 4
      && (n < TWO32 ==> Index(rs) + Foot(check, n) == G.Tail(check, rs))
  {
    var raw, n := G.IndexBytes(rs), |Index(rs)| / 4 - 1;
    PaddingIs(|raw|);
    IndexParts(rs, raw, raw + Padding(|raw|));
    if n < TWO32 {
      TailIs(check, rs, raw, raw + Padding(|raw|), n);
    }
  }

  lemma IndexParts(rs: seq<G.Record>, raw: seq<byte>, full: seq<byte>)
    requires raw == G.IndexBytes(rs) && full == raw + Padding(|raw|)
    ensures Index(rs) == full + Checksum(full)
  {
    IndexFields(rs);
  }

  lemma TailIs(check: nat, rs: seq<G.Record>, raw: seq<byte>, full: seq<byte>, n: Word)
    requires check <= 1 && raw == G.IndexBytes(rs) && full == raw + Padding(|raw|) && n == |full| / 4 && |full| >= 4
    ensures full + Checksum(full) + Foot(check, n) == G.Tail(check, rs)
  {
    PaddingIs(|raw|);
    FourIs(Crc(full, 0));
    FootIs(check, |full|);
    var pad, sum, foot := Padding(|raw|), Checksum(full), Foot(check, n);
    assert IndexEnd(check, raw) == pad + sum + foot;
    assert raw + (pad + sum + foot) == raw + pad + sum + foot;
  }

  lemma IndexFields(rs: seq<G.Record>)
    ensures [0x00] + Multibyte(|rs|) + Records(rs) == G.IndexBytes(rs)
  {
    RecordsAre(rs);
    MultibyteIs(|rs|);
  }

  lemma SumsAre(a: nat, b: nat, c: Word)
    requires a < F.TWO64 && b < F.TWO64
    ensures F.HashBytes(F.Hash(a, b, c)) == Eight(a) + Eight(b) + Four(c) + [0, 0, 0, 0]
  {
    EightIs(a);
    EightIs(b);
    FourIs(c);
    ZerosAre(4);
    assert F.Zeros(4) == [0, 0, 0, 0];
  }

  lemma AddIs(d: F.Hash, r: G.Record)
    ensures Add(d, r) == F.AddRecord(d, r.unpadded, r.uncompressed)
  {
    SumsAre((d.unpadded + r.unpadded) % F.TWO64, (d.uncompressed + r.uncompressed) % F.TWO64, d.crc);
  }

  lemma {:induction false} DigestIs(d: F.Hash, rs: seq<G.Record>)
    ensures Digest(d, rs) == G.HashOf(d, rs)
    decreases |rs|
  {
    if rs != [] {
      AddIs(d, rs[0]);
      DigestIs(Add(d, rs[0]), rs[1..]);
    }
  }

  /** What the decoder knows after the Blocks. */
  lemma {:induction false} SumIs(sum: Sum, bs: seq<G.Block>)
    ensures var end := G.SumOf(sum, bs);
      && end.check == sum.check && end.count == sum.count + |bs| && end.out == sum.out + Contents(bs)
      && end.hash == G.HashOf(sum.hash, Sizes(sum.check, bs))
    decreases |bs|
  {
    if bs != [] {
      var b := bs[0];
      BlockBytesIs(sum.check, b);
      SumIs(AddBlock(sum, |b.head|, |b.data|, b.out), bs[1..]);
      assert Sizes(sum.check, bs)[1..] == Sizes(sum.check, bs[1..]);
      G.Joins(sum.out, b.out, Contents(bs[1..]));
    }
  }

  // the grammar of the decoder is the format
  lemma StreamIs(u: Setup, check: nat, bs: seq<G.Block>, rs: seq<G.Record>, t: seq<byte>, end: Sum)
    requires check <= 1 && end == G.SumOf(Sum(check, 0, NO_HASH, []), bs)
    ensures G.Stream(u, check, bs, rs, t, end) <==> Stream(u, check, bs, rs, t)
    ensures end.out == Contents(bs)
  {
    AgreeIs(check, bs, rs);
    AllOk(u, bs);
    LaidIs(check, bs, rs, t);
    assert Stream(u, check, bs, rs, t) <==> BlocksOk(u, bs) && Agree(check, bs, rs) && Laid(check, bs, rs, t);
  }

  lemma LaidIs(check: nat, bs: seq<G.Block>, rs: seq<G.Record>, t: seq<byte>)
    requires check <= 1
    ensures Laid(check, bs, rs, t) <==>
      && (|G.IndexBytes(rs)| + F.Pad4(|G.IndexBytes(rs)|)) / 4 < TWO32
      && F.StreamHeader(check) <= t && t[12..] == G.BlocksBytes(check, bs) + G.Tail(check, rs)
  {
    IndexIs(check, rs);
    var n := |Index(rs)| / 4 - 1;
    if n < TWO32 {
      BytesAre(check, bs, rs, n, t);
    }
  }

  lemma BytesAre(check: nat, bs: seq<G.Block>, rs: seq<G.Record>, n: Word, t: seq<byte>)
    requires check <= 1 && Index(rs) + Foot(check, n) == G.Tail(check, rs)
    ensures t == Head(check) + Blocks(check, bs) + Index(rs) + Foot(check, n)
      <==> F.StreamHeader(check) <= t && t[12..] == G.BlocksBytes(check, bs) + G.Tail(check, rs)
  {
    BlocksAre(check, bs);
    HeadIs(check);
    Begins(Head(check), Blocks(check, bs), Index(rs), Foot(check, n), G.Tail(check, rs), t);
  }

  lemma Begins(head: seq<byte>, blocks: seq<byte>, index: seq<byte>, foot: seq<byte>, tail: seq<byte>, t: seq<byte>)
    requires index + foot == tail
    ensures t == head + blocks + index + foot <==> head <= t && t[|head|..] == blocks + tail
  {
    assert head + blocks + index + foot == head + (blocks + (index + foot));
  }

  lemma AgreeIs(check: nat, bs: seq<G.Block>, rs: seq<G.Record>)
    requires check <= 1
    ensures var end := G.SumOf(Sum(check, 0, NO_HASH, []), bs);
      && end.check == check && end.out == Contents(bs)
      && (G.IndexOk(end, rs)
          <==> Agree(check, bs, rs) && (|G.IndexBytes(rs)| + F.Pad4(|G.IndexBytes(rs)|)) / 4 < TWO32)
  {
    DigestIs(NO_HASH, rs);
    DigestIs(NO_HASH, Sizes(check, bs));
    SumIs(Sum(check, 0, NO_HASH, []), bs);
    assert [] + Contents(bs) == Contents(bs);
  }
}
