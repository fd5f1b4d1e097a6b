/**
 The container decoder of compat/xz_dec_stream.c, one input byte at a time, and what it accepts: the streams of
 the .xz format whose Index agrees with the Blocks. The filters that decode the contents of a Block are a
 parameter: what they make of the bytes given to them so far.
 */
module XzMachine {
  import opened Common
  import opened Words
  import opened XzCrc32
  import opened XzFormat

  datatype Status = Going | Over | Broken
  datatype Unpacked = Unpacked(out: seq<byte>, status: Status)

  /** The filters, and which Filter Flags they support. */
  datatype Setup = Setup(unpack: (Filters, seq<byte>) -> Unpacked, knowsBcj: nat -> bool, takesProps: byte -> bool)

  predicate Supports(u: Setup, f: Filters) { (f.bcj.Some? ==> u.knowsBcj(f.bcj.value)) && u.takesProps(f.props) }

  // More input never takes back output, and what is broken stays broken.
  ghost predicate Sane(u: Setup) {
    forall f, s, b ::
      var r, r' := u.unpack(f, s), u.unpack(f, s + [b]);
      r.status != Over ==> r.out <= r'.out && (r.status == Broken ==> r'.status == Broken)
  }

  /** What is known from the Blocks so far. */
  datatype Sum = Sum(check: nat, count: nat, hash: Hash, out: seq<byte>)

  datatype Field = Count | UnpaddedSize | UncompressedSize(unpadded: nat)

  datatype State =
    | InStreamHeader(got: seq<byte>)
    | AtBlock(sum: Sum)
    | InBlockHeader(sum: Sum, got: seq<byte>)
    | InData(sum: Sum, size: nat, h: Header, eaten: seq<byte>)
    | InIndex(sum: Sum, field: Field, part: seq<byte>, left: nat, hash: Hash, raw: seq<byte>)
    | Expecting(want: seq<byte>, next: State)
    | Finished(sum: Sum)
    | Failed

  const NO_HASH: Hash := Hash(0, 0, 0)

  function Expect(want: seq<byte>, next: State): State { if want == [] then next else Expecting(want, next) }

  ghost function AfterStreamHeader(t: seq<byte>): State {
    if |t| == 12 && t[7] <= 1 && t == StreamHeader(t[7]) then AtBlock(Sum(t[7], 0, NO_HASH, [])) else Failed
  }

  ghost function AfterBlockHeader(u: Setup, sum: Sum, t: seq<byte>): State {
    if h :| HeaderIs(t, h) && Supports(u, h.filters) then Data(u, sum, |t|, h, []) else Failed
  }

  predicate Exceeds(n: nat, o: Option<nat>) { o.Some? && n > o.value }
  predicate Differs(n: nat, o: Option<nat>) { o.Some? && n != o.value }

  /** The state when `eaten` are the bytes of Compressed Data so far. */
  function Data(u: Setup, sum: Sum, size: nat, h: Header, eaten: seq<byte>): State {
    var r := u.unpack(h.filters, eaten);
    if r.status == Broken || Exceeds(|eaten|, h.compressed) || Exceeds(|r.out|, h.uncompressed) then Failed
    else if r.status == Going then InData(sum, size, h, eaten)
    else if Differs(|eaten|, h.compressed) || Differs(|r.out|, h.uncompressed) then Failed
    else Expect(BlockEnd(sum.check, |eaten|, r.out), AtBlock(AddBlock(sum, size, |eaten|, r.out)))
  }

  // Block Padding and Check
  function BlockEnd(check: nat, compressed: nat, out: seq<byte>): seq<byte> {
    Zeros(Pad4(compressed)) + if check == 1 then Le(Crc(out, 0), 4) else []
  }

  function Unpadded(check: nat, size: nat, compressed: nat): nat { size + compressed + if check == 1 then 4 else 0 }

  function AddBlock(sum: Sum, size: nat, compressed: nat, out: seq<byte>): Sum {
    Sum(sum.check, sum.count + 1, AddRecord(sum.hash, Unpadded(sum.check, size, compressed), |out|), sum.out + out)
  }

  function AtIndex(sum: Sum): State { InIndex(sum, Count, [], 0, NO_HASH, [0]) }

  // the field of the Index that ends here has the value x
  function AfterField(sum: Sum, field: Field, x: nat, left: nat, hash: Hash, raw: seq<byte>): State {
    match field
    case Count =>
      if x != sum.count then Failed else if x == 0 then AfterIndex(sum, hash, raw)
      else InIndex(sum, UnpaddedSize, [], x, hash, raw)
    case UnpaddedSize => InIndex(sum, UncompressedSize(x), [], left, hash, raw)
    case UncompressedSize(unpadded) =>
      if left <= 1 then AfterIndex(sum, AddRecord(hash, unpadded, x), raw)
      else InIndex(sum, UnpaddedSize, [], left - 1, AddRecord(hash, unpadded, x), raw)
  }

  /** The Index must agree with the Blocks; padding, CRC32 and Stream Footer can then be foretold. */
  function AfterIndex(sum: Sum, hash: Hash, raw: seq<byte>): State {
    var full := raw + Zeros(Pad4(|raw|));
    if hash != sum.hash || sum.check > 1 || |full| / 4 >= TWO32 || raw == [] then Failed
    else Expecting(IndexEnd(sum.check, raw), Finished(sum))
  }

  // Index Padding, CRC32 and Stream Footer
  function IndexEnd(check: nat, raw: seq<byte>): (e: seq<byte>)
    requires check <= 1 && raw != []
    ensures |e| == Pad4(|raw|) + 16
  {
    var full := raw + Zeros(Pad4(|raw|));
    Zeros(Pad4(|raw|)) + Le(Crc(full, 0), 4) + StreamFooter(check, |full|)
  }

  /** One byte. */
  ghost function Step(u: Setup, s: State, b: byte): State {
    match s
    case InStreamHeader(got) =>
      if |got| < 11 then InStreamHeader(got + [b]) else AfterStreamHeader(got + [b])
    case AtBlock(sum) =>
      if b == 0 then AtIndex(sum) else InBlockHeader(sum, [b])
    case InBlockHeader(sum, got) =>
      if got != [] && |got| + 1 < HeaderSize(got[0]) then InBlockHeader(sum, got + [b])
      else AfterBlockHeader(u, sum, got + [b])
    case InData(sum, size, h, eaten) => Data(u, sum, size, h, eaten + [b])
    case InIndex(sum, field, part, left, hash, raw) =>
      (match VliNext(part, b)
       case More => InIndex(sum, field, part + [b], left, hash, raw + [b])
       case Done(x) => AfterField(sum, field, x, left, hash, raw + [b])
       case Bad => Failed)
    case Expecting(want, next) =>
      if want != [] && b == want[0] then Expect(want[1..], next) else Failed
    case Finished(_) => Failed
    case Failed => Failed
  }

  ghost function Feed(u: Setup, s: State, t: seq<byte>): State
    decreases |t|, SEAL + 1
  {
    SealedFeed(u, s, t, SEAL)
  }

  // FeedIs says what this stands for.
  ghost function SealedFeed(u: Setup, s: State, t: seq<byte>, seal: nat): State
    decreases |t|, seal
  {
    if seal > 0 then SealedFeed(u, s, t, seal - 1)
    else if t == [] then s else Feed(u, Step(u, s, t[0]), t[1..])
  }

  lemma FeedIs(u: Setup, s: State, t: seq<byte>)
    ensures Feed(u, s, t) == if t == [] then s else Feed(u, Step(u, s, t[0]), t[1..])
  {
    assert SealedFeed(u, s, t, 1) == SealedFeed(u, s, t, 0);
    assert SealedFeed(u, s, t, 2) == SealedFeed(u, s, t, 1);
    assert SealedFeed(u, s, t, 3) == SealedFeed(u, s, t, 2);
  }

  /** What has been decoded does not depend on how the input was cut up. */
  lemma {:induction false} FeedSlices(u: Setup, s: State, t: seq<byte>, t': seq<byte>)
    ensures Feed(u, s, t + t') == Feed(u, Feed(u, s, t), t')
    decreases |t|
  {
    FeedIs(u, s, t);
    FeedIs(u, s, t + t');
    if t == [] {
      assert t + t' == t';
    } else {
      assert (t + t')[1..] == t[1..] + t';
      FeedSlices(u, Step(u, s, t[0]), t[1..], t');
    }
  }

  lemma {:induction false} NothingAfterFailure(u: Setup, t: seq<byte>)
    ensures Feed(u, Failed, t) == Failed
    decreases |t|
  {
    FeedIs(u, Failed, t);
    if t != [] {
      NothingAfterFailure(u, t[1..]);
    }
  }

  // the end of an accepted stream is the end of its input
  lemma NothingAfterEnd(u: Setup, sum: Sum, t: seq<byte>)
    ensures Feed(u, Finished(sum), t) == if t == [] then Finished(sum) else Failed
  {
    FeedIs(u, Finished(sum), t);
    if t != [] {
      NothingAfterFailure(u, t[1..]);
    }
  }

  ghost predicate Ends(u: Setup, s: State, t: seq<byte>, sum: Sum) { Feed(u, s, t) == Finished(sum) }

  lemma {:induction false} ExpectIs(u: Setup, want: seq<byte>, next: State, t: seq<byte>, sum: Sum)
    ensures Ends(u, Expect(want, next), t, sum) <==> want <= t && Ends(u, next, t[|want|..], sum)
    decreases |want|
  {
    if want == [] {
      assert t[0..] == t;
    } else if t == [] {
      FeedIs(u, Expect(want, next), t);
    } else {
      FeedIs(u, Expect(want, next), t);
      if t[0] == want[0] {
        ExpectIs(u, want[1..], next, t[1..], sum);
        assert want <= t <==> want[1..] <= t[1..];
        assert want <= t ==> t[|want|..] == t[1..][|want| - 1..];
      } else {
        NothingAfterFailure(u, t[1..]);
      }
    }
  }

  lemma {:induction false} ExpectFed(u: Setup, want: seq<byte>, next: State)
    ensures Feed(u, Expect(want, next), want) == next
    decreases |want|
  {
    FeedIs(u, Expect(want, next), want);
    if want != [] {
      ExpectFed(u, want[1..], next);
    }
  }

  // ---- what has been decoded is not taken back

  /** The contents decoded so far. */
  function Decoded(u: Setup, s: State): seq<byte> {
    match s
    case InStreamHeader(_) => []
    case AtBlock(sum) => sum.out
    case InBlockHeader(sum, _) => sum.out
    case InData(sum, _, h, eaten) => sum.out + u.unpack(h.filters, eaten).out
    case InIndex(sum, _, _, _, _, _) => sum.out
    case Expecting(_, next) => if next.AtBlock? || next.Finished? then next.sum.out else []
    case Finished(sum) => sum.out
    case Failed => []
  }

  // states that the machine comes to
  predicate Proper(u: Setup, s: State) {
    && (s.InData? ==> u.unpack(s.h.filters, s.eaten).status == Going)
    && (s.Expecting? ==> s.next.AtBlock? || s.next.Finished?)
  }

  lemma DataAdds(u: Setup, sum: Sum, size: nat, h: Header, eaten: seq<byte>)
    ensures var s := Data(u, sum, size, h, eaten);
      Proper(u, s) && (s == Failed || Decoded(u, s) == sum.out + u.unpack(h.filters, eaten).out)
  {
  }

  lemma StepAdds(u: Setup, s: State, b: byte)
    requires Sane(u) && Proper(u, s)
    ensures var q := Step(u, s, b); Proper(u, q) && (q == Failed || Decoded(u, s) <= Decoded(u, q))
  {
    match s
    case InData(sum, size, h, eaten) =>
      DataAdds(u, sum, size, h, eaten + [b]);
      assert u.unpack(h.filters, eaten).out <= u.unpack(h.filters, eaten + [b]).out;
    case InBlockHeader(sum, got) =>
      HeaderAdds(u, sum, got + [b]);
    case _ =>
  }

  lemma HeaderAdds(u: Setup, sum: Sum, t: seq<byte>)
    ensures var q := AfterBlockHeader(u, sum, t); Proper(u, q) && (q == Failed || sum.out <= Decoded(u, q))
  {
    if h :| HeaderIs(t, h) && Supports(u, h.filters) && AfterBlockHeader(u, sum, t) == Data(u, sum, |t|, h, []) {
      DataAdds(u, sum, |t|, h, []);
    }
  }

  /** What has been decoded at any point is a beginning of what is decoded in the end. */
  lemma {:induction false} FeedAdds(u: Setup, s: State, t: seq<byte>)
    requires Sane(u) && Proper(u, s)
    ensures var q := Feed(u, s, t); Proper(u, q) && (q == Failed || Decoded(u, s) <= Decoded(u, q))
    decreases |t|
  {
    FeedIs(u, s, t);
    if t != [] {
      StepAdds(u, s, t[0]);
      FeedAdds(u, Step(u, s, t[0]), t[1..]);
      NothingAfterFailure(u, t[1..]);
    }
  }
}
