/**
 The whole decoder on values: the container over LZMA2, with or without the x86 filter.  What these filters make
 of a beginning of their input never has to be taken back, and a .xz stream built from any contents decodes to
 them.
 */
module XzEndToEnd {
  import opened Common
  import opened Words
  import opened Arithmetic
  import opened XzCrc32
  import opened XzFormat
  import opened XzMachine
  import opened XzGrammar
  import B = BcjX86
  import R = BcjRoundTrip
  import M = Lzma2Model
  import P = Lzma2Prefix
  import E = Lzma2Encoding

  /** What the filters of a Block make of the bytes so far. */
  function Unpack(f: Filters, s: seq<byte>): Unpacked {
    var (out, progress) := P.Decoded(M.DictSize(f.props), s);
    var status := match progress case Waits => Going case Done => Over case Bad => Broken;
    Unpacked(if f.bcj.Some? then Converted(out, progress.Done?) else out, status)
  }

  // the x86 filter; what it holds back stays as it is when there is no more
  function Converted(out: seq<byte>, all: bool): seq<byte> {
    if all then B.Whole(out) else B.Filter(0, 0, out).out
  }

  /** The filters of compat/xz_dec_bcj.c and compat/xz_dec_lzma2.c, for dictionaries of up to `dictMax`. */
  function RealSetup(dictMax: nat): Setup {
    Setup((f, s) => Unpack(f, s), v => v == B.BCJ_X86, (p: byte) => p <= 39 && M.DictSize(p) <= dictMax)
  }

  /** What a Block may be filtered with: x86, which has number 4 in the format, and LZMA2 with a dictionary of up to
      `dictMax` bytes, but not the 4 GiB that property 40 stands for. */
  lemma Supported(dictMax: nat, f: Filters)
    ensures Supports(RealSetup(dictMax), f) <==>
      && (f.bcj.None? || f.bcj.value == 4)
      && f.props < 40 && DictBytes(f.props) <= dictMax
  {
    DictIs(f.props);
  }

  // a power of two from 4 KiB on, or one and a half times as much
  function DictBytes(props: byte): nat { if props % 2 == 0 then Pow2(props / 2 + 12) else 3 * Pow2(props / 2 + 11) }

  lemma DictIs(props: byte)
    ensures M.DictSize(props) == DictBytes(props)
  {
    var n: nat := props / 2 + 11;
    assert Pow2(n + 1) == 2 * Pow2(n);
  }

  lemma ConvertedGrows(s: seq<byte>, t: seq<byte>, all: bool)
    requires s <= t
    ensures Converted(s, false) <= Converted(t, all)
  {
    assert t == s + t[|s|..];
    B.FilterSlices(0, 0, s, t[|s|..]);
  }

  lemma RealSetupIsSane(dictMax: nat)
    ensures Sane(RealSetup(dictMax))
  {
    var u := RealSetup(dictMax);
    forall f, s, b: byte
      ensures var r, r' := u.unpack(f, s), u.unpack(f, s + [b]);
        r.status != Over ==> r.out <= r'.out && (r.status == Broken ==> r'.status == Broken)
    {
      UnpackGrows(f, s, s + [b]);
    }
  }

  lemma UnpackGrows(f: Filters, s: seq<byte>, t: seq<byte>)
    requires s <= t
    ensures var r, r' := Unpack(f, s), Unpack(f, t);
      r.status != Over ==> r.out <= r'.out && (r.status == Broken ==> r'.status == Broken)
  {
    var size := M.DictSize(f.props);
    P.DecodedGrows(size, s, t);
    ConvertedGrows(P.Decoded(size, s).0, P.Decoded(size, t).0, P.Decoded(size, t).1.Done?);
  }

  // ---- encoding

  /** A Block to be: its contents, and LZMA2 chunks that stand for them once they went through the x86
      encoder, if that is used. */
  datatype Part = Part(head: seq<byte>, h: Header, chunks: seq<E.Chunk>, content: seq<byte>)

  ghost predicate ChunksOk(p: Part) {
    E.AllOk(M.DictSize(p.h.filters.props), E.Begin(), p.chunks)
  }

  function Data(p: Part): seq<byte>
    requires ChunksOk(p)
  {
    E.EncodedAll(M.DictSize(p.h.filters.props), E.Begin(), p.chunks)
  }

  ghost predicate PartOk(dictMax: nat, p: Part) {
    && HeaderIs(p.head, p.h) && Supports(RealSetup(dictMax), p.h.filters) && ChunksOk(p)
    && E.DataAll(M.DictSize(p.h.filters.props), E.Begin(), p.chunks)
       == (if p.h.filters.bcj.Some? then R.Encode(0, 0, p.content) else p.content)
    && !Differs(|Data(p)|, p.h.compressed) && !Differs(|p.content|, p.h.uncompressed)
  }

  function BlockOf(p: Part): Block
    requires ChunksOk(p)
  {
    Block(p.head, p.h, Data(p), p.content)
  }

  lemma PartDecodes(dictMax: nat, p: Part)
    requires PartOk(dictMax, p)
    ensures BlockOk(RealSetup(dictMax), BlockOf(p))
  {
    var f, size, data := p.h.filters, M.DictSize(p.h.filters.props), Data(p);
    var k := E.StreamRoundTrip(size, p.chunks);
    P.DecodedStream(size, data, k, E.DataAll(size, E.Begin(), p.chunks), |data|);
    assert data[..|data|] == data;
    if f.bcj.Some? {
      R.DecodesToOriginal(p.content);
    }
    assert Unpack(f, data) == Unpacked(p.content, Over);
    forall j | 0 <= j < |data|
      ensures Unpack(f, data[..j]).status == Going
    {
      assert P.Decoded(size, data[..j]).1 == P.Waits;
    }
  }

  ghost predicate PartsOk(dictMax: nat, ps: seq<Part>) {
    forall i :: 0 <= i < |ps| ==> PartOk(dictMax, ps[i])
  }

  function BlocksOf(ps: seq<Part>): (bs: seq<Block>)
    requires forall i :: 0 <= i < |ps| ==> ChunksOk(ps[i])
    ensures |bs| == |ps| && forall i :: 0 <= i < |bs| ==> bs[i] == BlockOf(ps[i])
  {
    if ps == [] then [] else [BlockOf(ps[0])] + BlocksOf(ps[1..])
  }

  function Contents(bs: seq<Block>): seq<byte> {
    if bs == [] then [] else bs[0].out + Contents(bs[1..])
  }

  function RecordsOf(check: nat, bs: seq<Block>): (rs: seq<Record>)
    ensures |rs| == |bs|
  {
    if bs == [] then []
    else [Record(Unpadded(check, |bs[0].head|, |bs[0].data|), |bs[0].out|)] + RecordsOf(check, bs[1..])
  }

  /** What the decoder knows after the Blocks is what their Records say. */
  lemma {:induction false} RecordsAgree(sum: Sum, bs: seq<Block>)
    ensures var end := SumOf(sum, bs);
      && end.check == sum.check && end.count == sum.count + |bs| && end.out == sum.out + Contents(bs)
      && HashOf(sum.hash, RecordsOf(sum.check, bs)) == end.hash
    decreases |bs|
  {
    if bs != [] {
      var b := bs[0];
      RecordsAgree(AddBlock(sum, |b.head|, |b.data|, b.out), bs[1..]);
      OneRecordMore(sum, bs);
      Joins(sum.out, b.out, Contents(bs[1..]));
    }
  }

  lemma OneRecordMore(sum: Sum, bs: seq<Block>)
    requires bs != []
    ensures var sum' := AddBlock(sum, |bs[0].head|, |bs[0].data|, bs[0].out);
      HashOf(sum.hash, RecordsOf(sum.check, bs)) == HashOf(sum'.hash, RecordsOf(sum.check, bs[1..]))
  {
    assert RecordsOf(sum.check, bs)[1..] == RecordsOf(sum.check, bs[1..]);
  }

  /** The .xz stream with these Blocks. */
  function StreamOf(check: nat, bs: seq<Block>): seq<byte>
    requires check <= 1
  {
    StreamHeader(check) + (BlocksBytes(check, bs) + Tail(check, RecordsOf(check, bs)))
  }

  // what the format can number: sizes and counts below 2^63, and the size of the Index in the Stream Footer
  predicate Countable(check: nat, bs: seq<Block>) {
    var rs := RecordsOf(check, bs);
    RecordsOk(rs) && |rs| < TWO63 && (|IndexBytes(rs)| + Pad4(|IndexBytes(rs)|)) / 4 < TWO32
  }

  /** Any contents, cut into Blocks, encoded for x86 or not, compressed to any LZMA2 chunks that stand for them
      and put into a container, come out again; XzStream says that this is so for every way to call xz_dec_run. */
  lemma RoundTrip(dictMax: nat, check: nat, ps: seq<Part>)
    requires check <= 1 && PartsOk(dictMax, ps) && Countable(check, BlocksOf(ps))
    ensures var end := SumOf(Sum(check, 0, NO_HASH, []), BlocksOf(ps));
      && Ends(RealSetup(dictMax), InStreamHeader([]), StreamOf(check, BlocksOf(ps)), end)
      && end.out == Contents(BlocksOf(ps))
  {
    var u, bs, sum := RealSetup(dictMax), BlocksOf(ps), Sum(check, 0, NO_HASH, []);
    var t, rs := StreamOf(check, bs), RecordsOf(check, bs);
    RealSetupIsSane(dictMax);
    forall i | 0 <= i < |bs|
      ensures BlockOk(u, bs[i])
    {
      PartDecodes(dictMax, ps[i]);
    }
    RecordsAgree(sum, bs);
    assert t[12..] == BlocksBytes(check, bs) + Tail(check, rs);
    StreamFed(u, check, bs, rs, t, SumOf(sum, bs));
  }

  // ---- there is such a stream for any contents

  /** Bytes stored as they are, 64 KiB at a time; the first chunk resets the dictionary. */
  function Stored(first: bool, s: seq<byte>): seq<E.Chunk>
    decreases |s|
  {
    if s == [] then []
    else if |s| <= 0x1_0000 then [E.Stored(first, s)]
    else [E.Stored(first, s[..0x1_0000])] + Stored(false, s[0x1_0000..])
  }

  lemma {:induction false} StoredOk(size: nat, k: E.Coder, first: bool, s: seq<byte>)
    requires !k.need.Nothing? && (first || k.need.NewProperties?)
    ensures E.AllOk(size, k, Stored(first, s)) && E.DataAll(size, k, Stored(first, s)) == s
    decreases |s|
  {
    if s != [] {
      var data, rest := if |s| <= 0x1_0000 then s else s[..0x1_0000], if |s| <= 0x1_0000 then [] else s[0x1_0000..];
      var c := E.Stored(first, data);
      var k' := E.After(size, E.Prepared(k, c), c);
      StoredOk(size, k', false, rest);
      assert Stored(first, s) == [c] + Stored(false, rest);
      assert Stored(first, s)[1..] == Stored(false, rest);
      assert data + rest == s;
    }
  }

  /** The smallest Block Header: no sizes, and the property byte of LZMA2. */
  function SmallHeader(x86: bool, props: byte): (Header, seq<byte>) {
    var h := Header(None, None, Filters(if x86 then Some(B.BCJ_X86) else None, props));
    var start := [2, if x86 then 1 else 0] + FilterBytes(h.filters) + (if x86 then [0] else [0, 0, 0]);
    (h, start + Le(Crc(start, 0), 4))
  }

  lemma SmallHeaderIs(x86: bool, props: byte)
    ensures var (h, head) := SmallHeader(x86, props); HeaderIs(head, h)
  {
    if x86 {
      X86HeaderIs(props);
    } else {
      PlainHeaderIs(props);
    }
  }

  lemma PlainHeaderIs(props: byte)
    ensures var (h, head) := SmallHeader(false, props); HeaderIs(head, h)
  {
    var (h, head) := SmallHeader(false, props);
    var start := [2, 0, 0x21, 1, props, 0, 0, 0];
    assert Zeros(3) == [0, 0, 0] && FilterBytes(h.filters) == [0x21, 1, props];
    assert [2, 0] + FilterBytes(h.filters) + [0, 0, 0] == start;
    HeaderOf(h, head, start, 3);
  }

  lemma X86HeaderIs(props: byte)
    ensures var (h, head) := SmallHeader(true, props); HeaderIs(head, h)
  {
    var (h, head) := SmallHeader(true, props);
    var start := [2, 1, B.BCJ_X86, 0, 0x21, 1, props, 0];
    assert Zeros(1) == [0] && FilterBytes(h.filters) == [B.BCJ_X86, 0, 0x21, 1, props];
    assert [2, 1] + FilterBytes(h.filters) + [0] == start;
    HeaderOf(h, head, start, 1);
  }

  lemma HeaderOf(h: Header, head: seq<byte>, start: seq<byte>, pad: nat)
    requires |start| == 8 && head == start + Le(Crc(start, 0), 4) && start[0] == 2 && start[1] == Flags(h)
    requires h.compressed.None? && h.uncompressed.None? && (h.filters.bcj.Some? ==> h.filters.bcj.value < 0x100)
    requires |FilterBytes(h.filters)| + pad == 6 && start[2..] == FilterBytes(h.filters) + Zeros(pad)
    ensures HeaderIs(head, h)
  {
    assert head[..8] == start;
    assert head[2..] == FilterBytes(h.filters) + HeaderEnd(head, pad);
    assert Fields(h, HeaderEnd(head, pad)) == [] + ([] + (FilterBytes(h.filters) + HeaderEnd(head, pad)));
  }

  lemma AnyContent(dictMax: nat, x86: bool, props: byte, content: seq<byte>) returns (p: Part)
    requires props <= 39 && M.DictSize(props) <= dictMax
    ensures PartOk(dictMax, p) && p.content == content && p.h.filters == SmallHeader(x86, props).0.filters
  {
    var (h, head) := SmallHeader(x86, props);
    var data := if x86 then R.Encode(0, 0, content) else content;
    SmallHeaderIs(x86, props);
    StoredOk(M.DictSize(props), E.Begin(), true, data);
    p := Part(head, h, Stored(true, data), content);
  }
}
