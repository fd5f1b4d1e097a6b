/**
 What the container decoder accepts, as a grammar: a stream is accepted if and only if it is a Stream Header,
 Blocks, an Index whose Records agree with the Blocks in number and sums, and a Stream Footer that gives the
 size of the Index.
 */
module XzGrammar {
  import opened Words
  import opened XzCrc32
  import opened XzFormat
  import opened XzMachine

  datatype Block = Block(head: seq<byte>, h: Header, data: seq<byte>, out: seq<byte>)
  datatype Record = Record(unpadded: nat, uncompressed: nat)

  /** `data` is decoded to `out`, and no beginning of it is complete. */
  ghost predicate Decodes(u: Setup, f: Filters, data: seq<byte>, out: seq<byte>) {
    && u.unpack(f, data) == Unpacked(out, Over)
    && forall k :: 0 <= k < |data| ==> u.unpack(f, data[..k]).status == Going
  }

  ghost predicate BlockOk(u: Setup, b: Block) {
    && HeaderIs(b.head, b.h) && Supports(u, b.h.filters) && Decodes(u, b.h.filters, b.data, b.out)
    && !Differs(|b.data|, b.h.compressed) && !Differs(|b.out|, b.h.uncompressed)
  }

  function BlockBytes(check: nat, b: Block): seq<byte> { b.head + b.data + BlockEnd(check, |b.data|, b.out) }

  function BlocksBytes(check: nat, bs: seq<Block>): seq<byte> {
    if bs == [] then [] else BlockBytes(check, bs[0]) + BlocksBytes(check, bs[1..])
  }

  function SumOf(sum: Sum, bs: seq<Block>): Sum
    decreases |bs|
  {
    if bs == [] then sum else SumOf(AddBlock(sum, |bs[0].head|, |bs[0].data|, bs[0].out), bs[1..])
  }

  function RecordBytes(r: Record): seq<byte> { VliBytes(r.unpadded) + VliBytes(r.uncompressed) }

  function RecordsBytes(rs: seq<Record>): seq<byte> {
    if rs == [] then [] else RecordBytes(rs[0]) + RecordsBytes(rs[1..])
  }

  function HashOf(hash: Hash, rs: seq<Record>): Hash
    decreases |rs|
  {
    if rs == [] then hash else HashOf(AddRecord(hash, rs[0].unpadded, rs[0].uncompressed), rs[1..])
  }

  predicate RecordsOk(rs: seq<Record>) {
    forall i :: 0 <= i < |rs| ==> rs[i].unpadded < TWO63 && rs[i].uncompressed < TWO63
  }

  // The Index field without padding and CRC32
  function IndexBytes(rs: seq<Record>): (b: seq<byte>)
    ensures b != []
  {
    [0] + VliBytes(|rs|) + RecordsBytes(rs)
  }

  /** The Records agree with the Blocks: their number, and the sums of their sizes modulo 2^64. */
  predicate IndexOk(sum: Sum, rs: seq<Record>) {
    && RecordsOk(rs) && |rs| == sum.count < TWO63 && HashOf(NO_HASH, rs) == sum.hash && sum.check <= 1
    && (|IndexBytes(rs)| + Pad4(|IndexBytes(rs)|)) / 4 < TWO32
  }

  // ---- Multibyte integers ----

  lemma {:induction false} VliFed(u: Setup, sum: Sum, field: Field, part: seq<byte>, left: nat, hash: Hash,
                                  raw: seq<byte>, rest: seq<byte>, x: nat)
    requires part + rest == VliBytes(x) && rest != [] && x < TWO63
    ensures Feed(u, InIndex(sum, field, part, left, hash, raw), rest) == AfterField(sum, field, x, left, hash, raw + rest)
    decreases |rest|
  {
    var b, s := rest[0], InIndex(sum, field, part, left, hash, raw);
    VliPiece(part, rest, x);
    FeedIs(u, s, rest);
    if |rest| == 1 {
      assert rest == [b];
      FeedIs(u, Step(u, s, b), rest[1..]);
    } else {
      OneOff(part, rest);
      OneOff(raw, rest);
      VliFed(u, sum, field, part + [b], left, hash, raw + [b], rest[1..], x);
    }
  }

  lemma OneOff(s: seq<byte>, t: seq<byte>)
    requires t != []
    ensures s + [t[0]] + t[1..] == s + t
  {
  }

  lemma {:induction false} VliRead(u: Setup, sum: Sum, field: Field, part: seq<byte>, left: nat, hash: Hash,
                                   raw: seq<byte>, t: seq<byte>, end: Sum) returns (x: nat, n: nat)
    requires Continuing(part) && |part| < VLI_BYTES_MAX && Ends(u, InIndex(sum, field, part, left, hash, raw), t, end)
    ensures 0 < n <= |t| && x < TWO63 && part + t[..n] == VliBytes(x)
    ensures Ends(u, AfterField(sum, field, x, left, hash, raw + t[..n]), t[n..], end)
    decreases |t|
  {
    FeedIs(u, InIndex(sum, field, part, left, hash, raw), t);
    var b := t[0];
    match VliNext(part, b)
    case Bad =>
      NothingAfterFailure(u, t[1..]);
      assert false;
    case Done(v) =>
      x, n := v, 1;
      assert t[..1] == [b];
      VliExact(part, b, x);
      VliIn63Bits(x);
    case More =>
      x, n := VliRead(u, sum, field, part + [b], left, hash, raw + [b], t[1..], end);
      n := n + 1;
      OneMore(part, t, n);
      OneMore(raw, t, n);
  }

  lemma OneMore(raw: seq<byte>, t: seq<byte>, n: nat)
    requires 0 < n <= |t|
    ensures raw + t[..n] == raw + [t[0]] + t[1..][..n - 1] && t[n..] == t[1..][n - 1..]
  {
  }

  // ---- Index ----

  lemma AfterIndexEnds(u: Setup, sum: Sum, hash: Hash, raw: seq<byte>, t: seq<byte>, end: Sum)
    requires raw != []
    ensures Ends(u, AfterIndex(sum, hash, raw), t, end) <==>
      && hash == sum.hash && sum.check <= 1 && (|raw| + Pad4(|raw|)) / 4 < TWO32
      && t == IndexEnd(sum.check, raw) && end == sum
  {
    if hash == sum.hash && sum.check <= 1 && (|raw| + Pad4(|raw|)) / 4 < TWO32 {
      var e := IndexEnd(sum.check, raw);
      ExpectIs(u, e, Finished(sum), t, end);
      if e <= t {
        NothingAfterEnd(u, sum, t[|e|..]);
        assert t == e + t[|e|..];
      }
    } else {
      NothingAfterFailure(u, t);
    }
  }

  lemma RecordFed(u: Setup, sum: Sum, left: nat, hash: Hash, raw: seq<byte>, r: Record)
    requires r.unpadded < TWO63 && r.uncompressed < TWO63
    ensures Feed(u, InIndex(sum, UnpaddedSize, [], left, hash, raw), RecordBytes(r))
      == AfterField(sum, UncompressedSize(r.unpadded), r.uncompressed, left, hash, raw + RecordBytes(r))
  {
    var a, b := VliBytes(r.unpadded), VliBytes(r.uncompressed);
    assert [] + a == a && [] + b == b;
    VliFed(u, sum, UnpaddedSize, [], left, hash, raw, a, r.unpadded);
    VliFed(u, sum, UncompressedSize(r.unpadded), [], left, hash, raw + a, b, r.uncompressed);
    FeedSlices(u, InIndex(sum, UnpaddedSize, [], left, hash, raw), a, b);
    assert raw + (a + b) == raw + a + b;
  }

  lemma RecordRead(u: Setup, sum: Sum, left: nat, hash: Hash, raw: seq<byte>, t: seq<byte>, end: Sum)
      returns (r: Record, n: nat)
    requires Ends(u, InIndex(sum, UnpaddedSize, [], left, hash, raw), t, end)
    ensures r.unpadded < TWO63 && r.uncompressed < TWO63 && n <= |t| && t[..n] == RecordBytes(r)
    ensures Ends(u, AfterField(sum, UncompressedSize(r.unpadded), r.uncompressed, left, hash, raw + t[..n]), t[n..], end)
  {
    var x, k := VliRead(u, sum, UnpaddedSize, [], left, hash, raw, t, end);
    var y, m := VliRead(u, sum, UncompressedSize(x), [], left, hash, raw + t[..k], t[k..], end);
    assert [] + t[..k] == t[..k] && [] + t[k..][..m] == t[k..][..m];
    r, n := Record(x, y), k + m;
    TwoParts(raw, t, k, m);
  }

  lemma TwoParts(raw: seq<byte>, t: seq<byte>, k: nat, m: nat)
    requires k + m <= |t|
    ensures t[..k + m] == t[..k] + t[k..][..m] && t[k + m..] == t[k..][m..]
    ensures raw + t[..k + m] == raw + t[..k] + t[k..][..m]
  {
  }

  lemma RecordsMore(hash: Hash, raw: seq<byte>, r: Record, rs: seq<Record>)
    ensures RecordsBytes([r] + rs) == RecordBytes(r) + RecordsBytes(rs)
    ensures HashOf(hash, [r] + rs) == HashOf(AddRecord(hash, r.unpadded, r.uncompressed), rs)
    ensures raw + RecordBytes(r) + RecordsBytes(rs) == raw + RecordsBytes([r] + rs)
  {
    assert ([r] + rs)[1..] == rs;
  }

  lemma NoRecords(hash: Hash, raw: seq<byte>)
    ensures HashOf(hash, []) == hash && raw + RecordsBytes([]) == raw
  {
  }

  lemma {:induction false} RecordsFed(u: Setup, sum: Sum, hash: Hash, raw: seq<byte>, rs: seq<Record>)
    requires rs != [] && RecordsOk(rs)
    ensures Feed(u, InIndex(sum, UnpaddedSize, [], |rs|, hash, raw), RecordsBytes(rs))
      == AfterIndex(sum, HashOf(hash, rs), raw + RecordsBytes(rs))
    decreases |rs|
  {
    var r, rest := rs[0], rs[1..];
    var hash', raw' := AddRecord(hash, r.unpadded, r.uncompressed), raw + RecordBytes(r);
    assert rs == [r] + rest;
    RecordsMore(hash, raw, r, rest);
    RecordFed(u, sum, |rs|, hash, raw, r);
    FeedSlices(u, InIndex(sum, UnpaddedSize, [], |rs|, hash, raw), RecordBytes(r), RecordsBytes(rest));
    if |rs| == 1 {
      NoRecords(hash', raw');
    } else {
      RecordsFed(u, sum, hash', raw', rest);
    }
  }

  lemma {:induction false} RecordsRead(u: Setup, sum: Sum, left: nat, hash: Hash, raw: seq<byte>, t: seq<byte>, end: Sum)
      returns (rs: seq<Record>)
    requires left > 0 && Ends(u, InIndex(sum, UnpaddedSize, [], left, hash, raw), t, end)
    ensures |rs| == left && RecordsOk(rs) && RecordsBytes(rs) <= t
    ensures Ends(u, AfterIndex(sum, HashOf(hash, rs), raw + RecordsBytes(rs)), t[|RecordsBytes(rs)|..], end)
    decreases left
  {
    var r, n := RecordRead(u, sum, left, hash, raw, t, end);
    var hash', raw' := AddRecord(hash, r.unpadded, r.uncompressed), raw + RecordBytes(r);
    if left == 1 {
      NoRecords(hash', raw');
      RecordsMore(hash, raw, r, []);
      rs := [r] + [];
    } else {
      var more := RecordsRead(u, sum, left - 1, hash', raw', t[n..], end);
      rs := [r] + more;
      RecordsMore(hash, raw, r, more);
      TwoParts(raw, t, n, |RecordsBytes(more)|);
    }
  }

  lemma IndexFed(u: Setup, sum: Sum, rs: seq<Record>)
    requires IndexOk(sum, rs)
    ensures Ends(u, AtBlock(sum), IndexBytes(rs) + IndexEnd(sum.check, IndexBytes(rs)), sum)
  {
    var c, more, n, raw := VliBytes(|rs|), RecordsBytes(rs), |rs|, IndexBytes(rs);
    assert [] + c == c;
    VliFed(u, sum, Count, [], 0, NO_HASH, [0], c, n);
    FeedSlices(u, AtBlock(sum), [0], c);
    FeedIs(u, AtBlock(sum), [0]);
    FeedIs(u, AtIndex(sum), []);
    FeedSlices(u, AtBlock(sum), [0] + c, more);
    if n == 0 {
      assert more == [] && [0] + c == raw;
    } else {
      RecordsFed(u, sum, NO_HASH, [0] + c, rs);
    }
    assert Feed(u, AtBlock(sum), raw) == AfterIndex(sum, HashOf(NO_HASH, rs), raw);
    FeedSlices(u, AtBlock(sum), raw, IndexEnd(sum.check, raw));
    AfterIndexEnds(u, sum, sum.hash, raw, IndexEnd(sum.check, raw), sum);
  }

  lemma IndexRead(u: Setup, sum: Sum, t: seq<byte>, end: Sum) returns (rs: seq<Record>)
    requires t != [] && t[0] == 0 && Ends(u, AtBlock(sum), t, end)
    ensures IndexOk(sum, rs) && end == sum && t == IndexBytes(rs) + IndexEnd(sum.check, IndexBytes(rs))
  {
    FeedIs(u, AtBlock(sum), t);
    var n, k := VliRead(u, sum, Count, [], 0, NO_HASH, [0], t[1..], end);
    var c, rest := t[1..][..k], t[1..][k..];
    assert [] + c == c;
    rs := AfterCount(u, sum, n, [0] + c, rest, end);
    var raw := [0] + c + RecordsBytes(rs);
    AfterIndexEnds(u, sum, HashOf(NO_HASH, rs), raw, rest[|RecordsBytes(rs)|..], end);
    ThreeParts(t, k, RecordsBytes(rs));
    assert raw == IndexBytes(rs);
  }

  lemma AfterCount(u: Setup, sum: Sum, n: nat, raw: seq<byte>, t: seq<byte>, end: Sum) returns (rs: seq<Record>)
    requires Ends(u, AfterField(sum, Count, n, 0, NO_HASH, raw), t, end)
    ensures |rs| == n == sum.count && RecordsOk(rs) && RecordsBytes(rs) <= t
    ensures Ends(u, AfterIndex(sum, HashOf(NO_HASH, rs), raw + RecordsBytes(rs)), t[|RecordsBytes(rs)|..], end)
  {
    if n != sum.count {
      NothingAfterFailure(u, t);
    }
    if n == 0 {
      rs := [];
      NoRecords(NO_HASH, raw);
    } else {
      rs := RecordsRead(u, sum, n, NO_HASH, raw, t, end);
    }
  }

  lemma ThreeParts(t: seq<byte>, k: nat, more: seq<byte>)
    requires 0 < |t| && k < |t| && t[0] == 0 && more <= t[1..][k..]
    ensures t == [0] + t[1..][..k] + more + t[1..][k..][|more|..]
  {
  }

  // ---- Block Header ----

  lemma {:induction false} HeaderFed(u: Setup, sum: Sum, got: seq<byte>, rest: seq<byte>)
    requires got != [] && rest != [] && |got + rest| == HeaderSize(got[0])
    ensures Feed(u, InBlockHeader(sum, got), rest) == AfterBlockHeader(u, sum, got + rest)
    decreases |rest|
  {
    var s, b := InBlockHeader(sum, got), rest[0];
    FeedIs(u, s, rest);
    if |rest| == 1 {
      assert got + [b] == got + rest;
      FeedIs(u, Step(u, s, b), rest[1..]);
    } else {
      OneOff(got, rest);
      HeaderFed(u, sum, got + [b], rest[1..]);
    }
  }

  lemma {:induction false} HeaderRead(u: Setup, sum: Sum, got: seq<byte>, t: seq<byte>, end: Sum) returns (n: nat)
    requires got != [] && |got| < HeaderSize(got[0]) && Ends(u, InBlockHeader(sum, got), t, end)
    ensures n <= |t| && |got| + n == HeaderSize(got[0])
    ensures Ends(u, AfterBlockHeader(u, sum, got + t[..n]), t[n..], end)
    decreases |t|
  {
    FeedIs(u, InBlockHeader(sum, got), t);
    var b := t[0];
    if |got| + 1 < HeaderSize(got[0]) {
      n := HeaderRead(u, sum, got + [b], t[1..], end);
      n := n + 1;
      OneMore(got, t, n);
    } else {
      n := 1;
      assert got + [b] == got + t[..1];
    }
  }

  lemma HeaderSays(u: Setup, sum: Sum, t: seq<byte>, h: Header)
    requires HeaderIs(t, h) && Supports(u, h.filters)
    ensures AfterBlockHeader(u, sum, t) == Data(u, sum, |t|, h, [])
  {
    var g :| HeaderIs(t, g) && Supports(u, g.filters) && AfterBlockHeader(u, sum, t) == Data(u, sum, |t|, g, []);
    HeaderUnique(t, g, h);
  }

  // ---- Compressed Data ----

  /** The output only grows while the filters go on. */
  lemma {:induction false} OutputGrows(u: Setup, f: Filters, data: seq<byte>, k: nat)
    requires Sane(u) && k <= |data| && forall j :: k <= j < |data| ==> u.unpack(f, data[..j]).status == Going
    ensures |u.unpack(f, data[..k]).out| <= |u.unpack(f, data).out|
    decreases |data| - k
  {
    if k == |data| {
      assert data[..k] == data;
    } else {
      assert data[..k + 1] == data[..k] + [data[k]];
      OutputGrows(u, f, data, k + 1);
    }
  }

  lemma {:induction false} DataFed(u: Setup, sum: Sum, b: Block, k: nat)
    requires Sane(u) && BlockOk(u, b) && k <= |b.data|
    ensures Feed(u, Data(u, sum, |b.head|, b.h, b.data[..k]), b.data[k..])
      == Expect(BlockEnd(sum.check, |b.data|, b.out), AtBlock(AddBlock(sum, |b.head|, |b.data|, b.out)))
    decreases |b.data| - k
  {
    var s := Data(u, sum, |b.head|, b.h, b.data[..k]);
    FeedIs(u, s, b.data[k..]);
    DataAt(u, sum, b, k);
    if k < |b.data| {
      assert b.data[..k] + [b.data[k]] == b.data[..k + 1] && b.data[k..][1..] == b.data[k + 1..];
      DataFed(u, sum, b, k + 1);
    }
  }

  // no beginning of a good Block is refused
  lemma DataAt(u: Setup, sum: Sum, b: Block, k: nat)
    requires Sane(u) && BlockOk(u, b) && k <= |b.data|
    ensures Data(u, sum, |b.head|, b.h, b.data[..k])
      == if k < |b.data| then InData(sum, |b.head|, b.h, b.data[..k])
         else Expect(BlockEnd(sum.check, |b.data|, b.out), AtBlock(AddBlock(sum, |b.head|, |b.data|, b.out)))
  {
    OutputGrows(u, b.h.filters, b.data, k);
    if k == |b.data| {
      assert b.data[..k] == b.data;
    }
  }

  ghost predicate StillGoing(u: Setup, f: Filters, data: seq<byte>) {
    forall j :: 0 <= j < |data| ==> u.unpack(f, data[..j]).status == Going
  }

  lemma {:induction false} DataRead(u: Setup, sum: Sum, head: seq<byte>, h: Header, eaten: seq<byte>, t: seq<byte>, end: Sum)
      returns (b: Block, n: nat)
    requires HeaderIs(head, h) && Supports(u, h.filters) && StillGoing(u, h.filters, eaten)
    requires Ends(u, Data(u, sum, |head|, h, eaten), t, end)
    ensures BlockOk(u, b) && b.head == head && n <= |t| && b.data == eaten + t[..n]
    ensures Ends(u, Expect(BlockEnd(sum.check, |b.data|, b.out), AtBlock(AddBlock(sum, |head|, |b.data|, b.out))), t[n..], end)
    decreases |t|
  {
    var r := u.unpack(h.filters, eaten);
    NothingAfterFailure(u, t);
    if r.status == Over {
      b, n := Block(head, h, eaten, r.out), 0;
      assert eaten + t[..0] == eaten && t[0..] == t;
    } else {
      assert r.status == Going;
      FeedIs(u, Data(u, sum, |head|, h, eaten), t);
      OneFurther(u, h.filters, eaten, t[0]);
      b, n := DataRead(u, sum, head, h, eaten + [t[0]], t[1..], end);
      n := n + 1;
      OneMore(eaten, t, n);
    }
  }

  lemma OneFurther(u: Setup, f: Filters, eaten: seq<byte>, b: byte)
    requires StillGoing(u, f, eaten) && u.unpack(f, eaten).status == Going
    ensures StillGoing(u, f, eaten + [b])
  {
    forall j | 0 <= j < |eaten + [b]|
      ensures u.unpack(f, (eaten + [b])[..j]).status == Going
    {
      if j == |eaten| {
        assert (eaten + [b])[..j] == eaten;
      } else {
        assert (eaten + [b])[..j] == eaten[..j];
      }
    }
  }

  // ---- Blocks ----

  ghost predicate BlocksOk(u: Setup, bs: seq<Block>) { forall i :: 0 <= i < |bs| ==> BlockOk(u, bs[i]) }

  lemma BlockFed(u: Setup, sum: Sum, b: Block)
    requires Sane(u) && BlockOk(u, b)
    ensures Feed(u, AtBlock(sum), BlockBytes(sum.check, b)) == AtBlock(AddBlock(sum, |b.head|, |b.data|, b.out))
  {
    var e, next := BlockEnd(sum.check, |b.data|, b.out), AtBlock(AddBlock(sum, |b.head|, |b.data|, b.out));
    FeedIs(u, AtBlock(sum), b.head);
    HeaderFed(u, sum, [b.head[0]], b.head[1..]);
    assert [b.head[0]] + b.head[1..] == b.head;
    HeaderSays(u, sum, b.head, b.h);
    FeedSlices(u, AtBlock(sum), b.head, b.data);
    DataFed(u, sum, b, 0);
    assert b.data[..0] == [] && b.data[0..] == b.data;
    FeedSlices(u, AtBlock(sum), b.head + b.data, e);
    ExpectFed(u, e, next);
  }

  lemma {:induction false} BlocksFed(u: Setup, sum: Sum, bs: seq<Block>)
    requires Sane(u) && BlocksOk(u, bs)
    ensures Feed(u, AtBlock(sum), BlocksBytes(sum.check, bs)) == AtBlock(SumOf(sum, bs))
    decreases |bs|
  {
    if bs == [] {
      FeedIs(u, AtBlock(sum), []);
    } else {
      var b := bs[0];
      BlockFed(u, sum, b);
      FeedSlices(u, AtBlock(sum), BlockBytes(sum.check, b), BlocksBytes(sum.check, bs[1..]));
      BlocksFed(u, AddBlock(sum, |b.head|, |b.data|, b.out), bs[1..]);
    }
  }

  lemma BlockRead(u: Setup, sum: Sum, t: seq<byte>, end: Sum) returns (b: Block, rest: seq<byte>)
    requires t != [] && t[0] != 0 && Ends(u, AtBlock(sum), t, end)
    ensures BlockOk(u, b) && t == BlockBytes(sum.check, b) + rest
    ensures Ends(u, AtBlock(AddBlock(sum, |b.head|, |b.data|, b.out)), rest, end)
  {
    FeedIs(u, AtBlock(sum), t);
    var k := HeaderRead(u, sum, [t[0]], t[1..], end);
    var head, t1 := [t[0]] + t[1..][..k], t[1..][k..];
    var h := HeaderGood(u, sum, head, t1, end);
    var n;
    b, n := DataRead(u, sum, head, h, [], t1, end);
    var e := BlockEnd(sum.check, |b.data|, b.out);
    ExpectIs(u, e, AtBlock(AddBlock(sum, |head|, |b.data|, b.out)), t1[n..], end);
    rest := t1[n..][|e|..];
    BlockParts(t, k, n, e);
    assert [] + t1[..n] == t1[..n];
  }

  lemma HeaderGood(u: Setup, sum: Sum, head: seq<byte>, t: seq<byte>, end: Sum) returns (h: Header)
    requires Ends(u, AfterBlockHeader(u, sum, head), t, end)
    ensures HeaderIs(head, h) && Supports(u, h.filters) && Ends(u, Data(u, sum, |head|, h, []), t, end)
  {
    NothingAfterFailure(u, t);
    h :| HeaderIs(head, h) && Supports(u, h.filters) && AfterBlockHeader(u, sum, head) == Data(u, sum, |head|, h, []);
  }

  lemma BlockParts(t: seq<byte>, k: nat, n: nat, e: seq<byte>)
    requires t != [] && k <= |t| - 1 && n <= |t[1..][k..]| && e <= t[1..][k..][n..]
    ensures t == [t[0]] + t[1..][..k] + t[1..][k..][..n] + e + t[1..][k..][n..][|e|..]
  {
    var t1 := t[1..][k..];
    assert t1 == t1[..n] + e + t1[n..][|e|..];
    assert t == [t[0]] + t[1..][..k] + t1;
  }

  lemma {:induction false} BlocksRead(u: Setup, sum: Sum, t: seq<byte>, end: Sum) returns (bs: seq<Block>, rs: seq<Record>)
    requires Ends(u, AtBlock(sum), t, end)
    ensures Good(u, sum, bs, rs, t, end)
    decreases |t|
  {
    FeedIs(u, AtBlock(sum), t);
    if t[0] == 0 {
      rs := IndexRead(u, sum, t, end);
      bs := [];
      assert BlocksBytes(sum.check, bs) + Tail(sum.check, rs) == Tail(sum.check, rs);
    } else {
      var b, rest := BlockRead(u, sum, t, end);
      var sum' := AddBlock(sum, |b.head|, |b.data|, b.out);
      var more;
      more, rs := BlocksRead(u, sum', rest, end);
      bs := [b] + more;
      MoreBlocks(u, sum, b, more, rs, rest, end);
    }
  }

  /** `t` is Blocks, an Index that agrees with them, and a Stream Footer; `end` is what is known then. */
  ghost predicate Good(u: Setup, sum: Sum, bs: seq<Block>, rs: seq<Record>, t: seq<byte>, end: Sum) {
    && BlocksOk(u, bs) && end == SumOf(sum, bs) && IndexOk(end, rs)
    && t == BlocksBytes(sum.check, bs) + Tail(end.check, rs)
  }

  // Index and Stream Footer
  function Tail(check: nat, rs: seq<Record>): seq<byte>
    requires check <= 1
  {
    IndexBytes(rs) + IndexEnd(check, IndexBytes(rs))
  }

  lemma MoreBlocks(u: Setup, sum: Sum, b: Block, bs: seq<Block>, rs: seq<Record>, rest: seq<byte>, end: Sum)
    requires BlockOk(u, b) && Good(u, AddBlock(sum, |b.head|, |b.data|, b.out), bs, rs, rest, end)
    ensures Good(u, sum, [b] + bs, rs, BlockBytes(sum.check, b) + rest, end)
  {
    var all := [b] + bs;
    assert all[1..] == bs;
    Joins(BlockBytes(sum.check, b), BlocksBytes(sum.check, bs), Tail(end.check, rs));
  }

  lemma Joins(x: seq<byte>, y: seq<byte>, z: seq<byte>)
    ensures x + (y + z) == x + y + z
  {
  }

  // ---- Streams ----

  /** `t` is a whole stream with these Blocks and Records. */
  ghost predicate Stream(u: Setup, check: nat, bs: seq<Block>, rs: seq<Record>, t: seq<byte>, end: Sum) {
    check <= 1 && StreamHeader(check) <= t && Good(u, Sum(check, 0, NO_HASH, []), bs, rs, t[12..], end)
  }

  /** The decoder accepts exactly the streams of the format whose Index agrees with their Blocks. */
  lemma AcceptsStreams(u: Setup, t: seq<byte>, end: Sum)
    requires Sane(u)
    ensures Ends(u, InStreamHeader([]), t, end) <==> exists check, bs, rs :: Stream(u, check, bs, rs, t, end)
  {
    if Ends(u, InStreamHeader([]), t, end) {
      var check, bs, rs := StreamRead(u, t, end);
    }
    if check, bs, rs :| Stream(u, check, bs, rs, t, end) {
      StreamFed(u, check, bs, rs, t, end);
    }
  }

  lemma StreamRead(u: Setup, t: seq<byte>, end: Sum) returns (check: nat, bs: seq<Block>, rs: seq<Record>)
    requires Ends(u, InStreamHeader([]), t, end)
    ensures Stream(u, check, bs, rs, t, end)
  {
    StreamHeaderFed(u, [], t);
    assert [] + t == t;
    NothingAfterFailure(u, t[12..]);
    check := t[..12][7];
    assert t[..12] == StreamHeader(check);
    bs, rs := BlocksRead(u, Sum(check, 0, NO_HASH, []), t[12..], end);
  }

  lemma StreamFed(u: Setup, check: nat, bs: seq<Block>, rs: seq<Record>, t: seq<byte>, end: Sum)
    requires Sane(u) && Stream(u, check, bs, rs, t, end)
    ensures Ends(u, InStreamHeader([]), t, end)
  {
    var sum, head, rest := Sum(check, 0, NO_HASH, []), t[..12], t[12..];
    HeadFed(u, check, head);
    FeedSlices(u, InStreamHeader([]), head, rest);
    assert head + rest == t;
    GoodFed(u, sum, bs, rs, rest, end);
  }

  lemma HeadFed(u: Setup, check: nat, head: seq<byte>)
    requires check <= 1 && head == StreamHeader(check)
    ensures Feed(u, InStreamHeader([]), head) == AtBlock(Sum(check, 0, NO_HASH, []))
  {
    assert [] + head == head && head[7] == check;
    StreamHeaderFed(u, [], head);
    assert head[..12] == head && head[12..] == [];
    FeedIs(u, AtBlock(Sum(check, 0, NO_HASH, [])), []);
  }

  lemma GoodFed(u: Setup, sum: Sum, bs: seq<Block>, rs: seq<Record>, t: seq<byte>, end: Sum)
    requires Sane(u) && Good(u, sum, bs, rs, t, end)
    ensures Ends(u, AtBlock(sum), t, end)
  {
    BlocksFed(u, sum, bs);
    KeepsCheck(sum, bs);
    FeedSlices(u, AtBlock(sum), BlocksBytes(sum.check, bs), Tail(end.check, rs));
    IndexFed(u, end, rs);
  }

  lemma {:induction false} KeepsCheck(sum: Sum, bs: seq<Block>)
    ensures SumOf(sum, bs).check == sum.check
    decreases |bs|
  {
    if bs != [] {
      KeepsCheck(AddBlock(sum, |bs[0].head|, |bs[0].data|, bs[0].out), bs[1..]);
    }
  }

  // the first twelve bytes are collected
  lemma {:induction false} StreamHeaderFed(u: Setup, got: seq<byte>, t: seq<byte>)
    requires |got| < 12
    ensures Feed(u, InStreamHeader(got), t) ==
      if |got + t| < 12 then InStreamHeader(got + t)
      else Feed(u, AfterStreamHeader((got + t)[..12]), (got + t)[12..])
    decreases |t|
  {
    FeedIs(u, InStreamHeader(got), t);
    if t == [] {
      assert got + t == got;
    } else {
      OneOff(got, t);
      if |got| < 11 {
        StreamHeaderFed(u, got + [t[0]], t[1..]);
      } else {
        assert (got + t)[..12] == got + [t[0]] && (got + t)[12..] == t[1..];
      }
    }
  }
}
