/**
 struct xz_dec of compat/xz_dec_stream.c in multi-call mode. However the caller cuts up the input, the decoder
 is where the machine of XzMachine is after the same bytes.
 */
module XzStream {
  import opened Common
  import opened Words
  import opened Memory
  import opened XzApi
  import opened XzCrc32
  import opened XzFormat
  import opened XzMachine
  import opened XzGrammar
  import opened XzHeader
  import opened XzSteps
  import opened Arithmetic

  /** The filters as the container sees them: they eat input as long as they are not done, and hand out what
      they made of it when there is room. They ask for more only when the input or the room is used up. */
  class Unpacker {
    const u: Setup
    var filters: Filters
    var eaten: seq<byte>
    var made: nat

    constructor (u: Setup, f: Filters)
      ensures this.u == u && Valid()
    {
      this.u, filters, eaten, made := u, f, [], 0;
    }

    ghost predicate Valid()
      reads this
    {
      made <= |u.unpack(filters, eaten).out|
    }

    // xz_dec_bcj_reset and xz_dec_lzma2_reset
    method Reset(f: Filters)
      modifies `filters, `eaten, `made
      ensures Valid() && filters == f && eaten == [] && made == 0
    {
      filters, eaten, made := f, [], 0;
    }

    // as long as there is room for more, and perhaps longer
    method Eat(b: XzBuf)
      requires Valid() && b.Valid() && Sane(u)
      modifies `eaten, b`inPos
      ensures Valid() && old(b.inPos) <= b.inPos <= b.inSize && eaten == old(eaten) + b.input[old(b.inPos)..b.inPos]
      ensures forall k :: |old(eaten)| <= k < |eaten| ==> u.unpack(filters, eaten[..k]).status != Over
      ensures u.unpack(filters, old(eaten)).out <= u.unpack(filters, eaten).out
      ensures var r := u.unpack(filters, eaten);
        b.inPos == b.inSize || r.status == Over || |r.out| - made >= b.outSize - b.outPos
    {
      var more: bool := *;
      while b.inPos < b.inSize && u.unpack(filters, eaten).status != Over
        && (more || |u.unpack(filters, eaten).out| - made < b.outSize - b.outPos)
        invariant Valid() && old(b.inPos) <= b.inPos <= b.inSize && eaten == old(eaten) + b.input[old(b.inPos)..b.inPos]
        invariant forall k :: |old(eaten)| <= k < |eaten| ==> u.unpack(filters, eaten[..k]).status != Over
        invariant u.unpack(filters, old(eaten)).out <= u.unpack(filters, eaten).out
        decreases b.inSize - b.inPos
      {
        ghost var e := eaten;
        assert u.unpack(filters, e).out <= u.unpack(filters, e + [b.input[b.inPos]]).out;
        eaten := eaten + [b.input[b.inPos]];
        assert forall k :: 0 <= k < |e| ==> eaten[..k] == e[..k];
        assert eaten[..|e|] == e;
        b.inPos := b.inPos + 1;
        more := *;
      }
    }

    // whether the bytes offered, eaten or not, break the Block
    method WillBreak(b: XzBuf) returns (broken: bool)
      requires b.Valid()
      ensures broken ==> Breaks(u, filters, eaten, b.input[b.inPos..b.inSize])
    {
      var n := b.inPos;
      ghost var t := b.input[b.inPos..b.inSize];
      while n < b.inSize && u.unpack(filters, eaten + b.input[b.inPos..n]).status == Going
        invariant b.inPos <= n <= b.inSize
        invariant forall k :: 0 <= k < n - b.inPos ==> u.unpack(filters, eaten + t[..k]).status == Going
      {
        assert t[..n - b.inPos] == b.input[b.inPos..n];
        n := n + 1;
      }
      broken := u.unpack(filters, eaten + b.input[b.inPos..n]).status == Broken;
      ghost var s := t[..n - b.inPos];
      assert s == b.input[b.inPos..n];
      assert forall k :: 0 <= k < |s| ==> s[..k] == t[..k];
      assert broken ==> BreaksAt(u, filters, eaten, s);
    }

    /** xz_dec_lzma2_run or xz_dec_bcj_run. They look ahead: bytes are eaten before they are decoded, and an
        error may be due to bytes that do not count as eaten. What is in the output then is not specified. */
    method Run(b: XzBuf) returns (ret: XzRet)
      requires Valid() && b.Valid() && Sane(u)
      modifies `eaten, `made, b`inPos, b`outPos, b.output
      ensures b.Valid() && old(b.inPos) <= b.inPos && old(b.outPos) <= b.outPos && b.input[..] == old(b.input[..])
      ensures ret == XzOk || ret == XzStreamEnd || ret == XzDataError
      ensures ret != XzDataError ==> Ran(b)
      ensures ret == XzOk ==> b.UsedUp()
      ensures ret == XzStreamEnd ==> u.unpack(filters, eaten).status == Over && made == |u.unpack(filters, eaten).out|
      ensures ret == XzDataError ==>
        && Breaks(u, filters, old(eaten), b.input[old(b.inPos)..b.inSize])
        && b.output[..old(b.outPos)] == old(b.output[..b.outPos]) && b.output[b.outSize..] == old(b.output[b.outSize..])
    {
      var breaks := WillBreak(b);
      ret := *;
      if breaks && ret == XzDataError {
        Fail(b);
        return;
      }
      Eat(b);
      ret := Hand(b);
    }

    // what has been decoded is handed out; some of it may be held back as long as there is no more input
    method Hand(b: XzBuf) returns (ret: XzRet)
      requires Valid() && b.Valid()
      requires var r := u.unpack(filters, eaten);
        b.inPos == b.inSize || r.status == Over || |r.out| - made >= b.outSize - b.outPos
      modifies `made, b`outPos, b.output
      ensures Valid() && b.Valid() && old(b.outPos) <= b.outPos && made == old(made) + (b.outPos - old(b.outPos))
      ensures var sent := u.unpack(filters, eaten).out[old(made)..made];
        Written(old(b.output[..]), old(b.outPos), sent, b.output[..], b.outSize)
      ensures ret == XzOk || ret == XzStreamEnd
      ensures ret == XzOk ==> b.UsedUp()
      ensures ret == XzStreamEnd ==> u.unpack(filters, eaten).status == Over && made == |u.unpack(filters, eaten).out|
    {
      var r := u.unpack(filters, eaten);
      var room := Min(|r.out| - made, b.outSize - b.outPos);
      var n: nat :| n <= room;
      if b.inPos < b.inSize || r.status == Over {
        n := room;
      }
      Give(b, r.out, n);
      ret := if r.status == Over && made == |r.out| then XzStreamEnd else XzOk;
    }

    // what Run does to its buffer when there is no error
    twostate predicate Ran(b: XzBuf)
      reads this, b, b.input, b.output
    {
      && Valid() && b.Valid() && filters == old(filters) && old(b.inPos) <= b.inPos && old(made) <= made
      && eaten == old(eaten) + b.input[old(b.inPos)..b.inPos]
      && (forall k :: |old(eaten)| <= k < |eaten| ==> u.unpack(filters, eaten[..k]).status != Over)
      && u.unpack(filters, old(eaten)).out <= u.unpack(filters, eaten).out
      && b.outPos == old(b.outPos) + (made - old(made))
      && var sent := u.unpack(filters, eaten).out[old(made)..made];
         Written(old(b.output[..]), old(b.outPos), sent, b.output[..], b.outSize)
    }

    method Fail(b: XzBuf)
      requires b.Valid()
      modifies b`inPos, b`outPos, b.output
      ensures b.Valid() && old(b.inPos) <= b.inPos && old(b.outPos) <= b.outPos
      ensures b.output[..old(b.outPos)] == old(b.output[..b.outPos]) && b.output[b.outSize..] == old(b.output[b.outSize..])
    {
      var out0 := b.outPos;
      var some := *;
      while some && b.outPos < b.outSize
        invariant b.Valid() && out0 <= b.outPos && b.inPos == old(b.inPos)
        invariant forall i :: 0 <= i < out0 || b.outSize <= i < b.output.Length ==> b.output[i] == old(b.output[i])
        decreases b.outSize - b.outPos
      {
        var x: byte := *;
        b.output[b.outPos] := x;
        b.outPos := b.outPos + 1;
        some := *;
      }
      var n: nat :| n <= b.inSize - b.inPos;
      b.inPos := b.inPos + n;
    }

    method Give(b: XzBuf, out: seq<byte>, n: nat)
      requires b.Valid() && made + n <= |out| && b.outPos + n <= b.outSize
      modifies `made, b`outPos, b.output
      ensures made == old(made) + n && b.outPos == old(b.outPos) + n
      ensures Written(old(b.output[..]), old(b.outPos), out[old(made)..made], b.output[..], b.outSize)
    {
      var m := made;
      OverwriteWritten(b.output[..], b.outPos, out[m..m + n], b.outSize);
      OverwriteIs(b.output[..], b.outPos, out[m..m + n]);
      forall i | 0 <= i < n {
        b.output[b.outPos + i] := out[m + i];
      }
      made, b.outPos := m + n, b.outPos + n;
    }
  }

  datatype Sequence =
    SeqStreamHeader | SeqBlockStart | SeqBlockHeader | SeqBlockUncompress | SeqBlockPadding | SeqBlockCheck |
    SeqIndex | SeqIndexPadding | SeqIndexCrc32 | SeqStreamFooter

  // how the handling of one field ends
  datatype Verdict = Proceed | Stop(ret: XzRet)

  predicate IsError(ret: XzRet) { ret != XzOk && ret != XzStreamEnd && ret != XzBufError }

  // where a call began
  datatype Beginning = Begun(state: State, produced: seq<byte>, inPos: nat, outPos: nat, output: seq<byte>)

  datatype IndexSequence = SeqIndexCount | SeqIndexUnpadded | SeqIndexUncompressed

  class XzDec {
    const crcTable: Crc32
    const unpacker: Unpacker

    var sequence: Sequence
    var pos: nat
    var vli: nat
    var inStart: nat
    var outStart: nat
    var crc32: Word
    var checkType: nat
    var allowBufError: bool

    // block_header; None is VLI_UNKNOWN
    var headerCompressed: Option<nat>
    var headerUncompressed: Option<nat>
    var headerSize: nat

    // block
    var blockCompressed: nat
    var blockUncompressed: nat
    var blockCount: nat
    var blockHash: Hash

    // index
    var indexSequence: IndexSequence
    var indexSize: nat
    var indexCount: nat
    var indexHash: Hash

    const temp: array<byte>
    var tempPos: nat
    var tempSize: nat

    /** What the Blocks and the Index have said so far. */
    ghost var sum: Sum
    ghost var h: Header
    ghost var part: seq<byte>
    ghost var field: Field
    ghost var base: Hash
    ghost var raw: seq<byte>
    ghost var summed: seq<byte>

    ghost predicate Wired()
    {
      temp.Length == 1024 && crcTable.Valid() && Sane(unpacker.u)
    }

    ghost predicate Known()
      reads this`checkType, this`blockCount, this`blockHash, this`sum
    {
      checkType == sum.check <= 1 && blockCount == sum.count && blockHash == sum.hash
    }

    ghost predicate Idle()
      reads this`pos, this`crc32, this`tempPos
    {
      pos == 0 && crc32 == 0 && tempPos == 0
    }

    ghost predicate NoIndex()
      reads this`indexSequence, this`indexSize, this`indexCount, this`indexHash
    {
      indexSequence.SeqIndexCount? && indexSize == 0 && indexCount == 0 && indexHash == NO_HASH
    }

    ghost predicate VliState()
      reads this`pos, this`vli, this`part
    {
      pos == 7 * |part| && Continuing(part) && |part| < VLI_BYTES_MAX && (pos > 0 ==> vli == VliValue(part))
    }

    // the Index up to some point is counted and summed up
    ghost predicate Counted()
      reads this`raw, this`indexSize, this`summed, this`crc32, this`tempPos
    {
      raw != [] && indexSize == |summed| && crc32 == Crc(summed, 0) && tempPos == 0
    }

    ghost predicate FieldState()
      reads this`indexSequence, this`field, this`base, this`indexHash, this`indexCount
    {
      match indexSequence
      case SeqIndexCount => field == Count && base == indexHash == NO_HASH && indexCount == 0
      case SeqIndexUnpadded => field == UnpaddedSize && base == indexHash && indexCount > 0
      case SeqIndexUncompressed =>
        field.UncompressedSize? && indexCount > 0
        && indexHash == base.(unpadded := (base.unpadded + field.unpadded) % TWO64)
    }

    ghost predicate DataState()
      reads this`h, this`pos, this`tempPos, this`headerCompressed, this`headerUncompressed
      reads this`blockCompressed, this`blockUncompressed, this`checkType, this`crc32, unpacker
    {
      DataCounted() && crc32 == if checkType == 1 then Crc(Unpacked(), 0) else 0
    }

    ghost predicate DataCounted()
      reads this`h, this`pos, this`tempPos, this`headerCompressed
      reads this`headerUncompressed, this`blockCompressed, this`blockUncompressed, unpacker
    {
      && unpacker.Valid() && unpacker.filters == h.filters && pos == 0 && tempPos == 0
      && headerCompressed == h.compressed && headerUncompressed == h.uncompressed
      && blockCompressed == |unpacker.eaten| && blockUncompressed == unpacker.made
    }

    ghost predicate HeaderState()
      reads this`checkType, this`blockCount, this`blockHash, this`sum, this`indexSequence, this`indexSize, this`indexCount
      reads this`indexHash, this`pos, this`crc32, this`tempPos, this`tempSize, this`headerSize, temp
    {
      && Known() && pos == 0 && crc32 == 0 && NoIndex() && 0 < tempPos < tempSize == headerSize <= 1024 <= temp.Length
      && HeaderSize(temp[0]) == tempSize && temp[0] != 0
    }

    // the decoder has all of the Index but its CRC32
    ghost predicate IndexKnown()
      reads this`raw, this`indexSize
    {
      raw != [] && |raw| % 4 == 0 && indexSize == |raw|
    }

    ghost predicate StreamHeaderState()
      reads this`indexSequence, this`indexSize, this`indexCount, this`indexHash, this`pos
      reads this`crc32, this`blockCount, this`blockHash, this`tempPos, this`tempSize
    {
      pos == 0 && crc32 == 0 && NoIndex() && blockCount == 0 && blockHash == NO_HASH && tempPos < tempSize == 12 <= temp.Length
    }

    ghost predicate BlockState()
      reads this`checkType, this`blockCount, this`blockHash, this`sum, this`pos
      reads this`crc32, this`tempPos, this`indexSequence, this`indexSize, this`indexCount, this`indexHash
    {
      Known() && Idle() && NoIndex()
    }

    ghost predicate PaddingState()
      reads this`checkType, this`blockCount, this`blockHash, this`sum, this`indexSequence
      reads this`indexSize, this`indexCount, this`indexHash, this`pos, this`tempPos, this`crc32
    {
      Known() && NoIndex() && pos == 0 && tempPos == 0 && (checkType == 0 ==> crc32 == 0)
    }

    ghost predicate CheckState()
      reads this`checkType, this`blockCount, this`blockHash, this`sum, this`indexSequence
      reads this`indexSize, this`indexCount, this`indexHash, this`tempPos, this`pos, this`crc32
    {
      && Known() && NoIndex() && tempPos == 0
      && if checkType == 1 then pos % 8 == 0 && pos < 32 else pos == 0 && crc32 == 0
    }

    ghost predicate IndexState()
      reads this`checkType, this`blockCount, this`blockHash, this`sum, this`raw, this`indexSize, this`summed, this`crc32
      reads this`tempPos, this`pos, this`vli, this`part, this`indexSequence, this`field, this`base, this`indexHash, this`indexCount
    {
      Counted() && VliState() && FieldState()
    }

    ghost predicate IndexPaddingState()
      reads this`checkType, this`blockCount, this`blockHash, this`sum, this`raw
      reads this`indexSize, this`summed, this`crc32, this`tempPos, this`pos
    {
      Counted() && pos == 0
    }

    ghost predicate IndexCrcState()
      reads this`checkType, this`blockCount, this`blockHash, this`sum
      reads this`raw, this`indexSize, this`crc32, this`pos, this`tempPos
    {
      Known() && IndexKnown() && crc32 == Crc(raw, 0) && pos % 8 == 0 && pos < 32 && tempPos == 0
    }

    ghost predicate FooterState()
      reads this`checkType, this`blockCount, this`blockHash, this`sum
      reads this`raw, this`indexSize, this`pos, this`tempPos, this`tempSize
    {
      Known() && IndexKnown() && pos == 0 && tempPos < tempSize == 12 <= temp.Length
    }

    // the Check field that is still to come
    ghost function CheckLeft(): seq<byte>
      reads this`checkType, this`crc32, this`pos
    {
      if checkType == 1 then Later(Le(crc32, 4), pos / 8) else []
    }

    ghost function IndexCrcAt(): State
      reads this`sum, this`raw, this`crc32, this`pos
    {
      if sum.check > 1 || |raw| < 4 || |raw| / 4 >= TWO32 then Failed
      else Expect(Later(Le(crc32, 4), pos / 8) + StreamFooter(sum.check, |raw|), Finished(sum))
    }

    ghost function FooterAt(): State
      reads this`sum, this`raw, this`tempPos, temp
    {
      if sum.check > 1 || |raw| < 4 || |raw| / 4 >= TWO32 then Failed
      else Feed(unpacker.u, Expect(StreamFooter(sum.check, |raw|), Finished(sum)), Got())
    }

    // what fill_temp has collected
    ghost function Got(): seq<byte>
      reads this`tempPos, temp
    {
      if tempPos <= temp.Length then temp[..tempPos] else []
    }

    ghost function DataAt(): State
      reads this`sum, this`headerSize, this`h, unpacker
    {
      Data(unpacker.u, sum, headerSize, h, unpacker.eaten)
    }

    /** What holds between two steps. The recursion on `seal` only keeps the definition out of proofs that do
        not need it; see StateIs. */
    ghost predicate StateOk()
      reads this, temp, unpacker
      decreases SEAL + 1, raw
    {
      SealedOk(SEAL)
    }

    ghost predicate SealedOk(seal: nat)
      reads this, temp, unpacker
      decreases seal, raw
    {
      if seal > 0 then SealedOk(seal - 1) else
        match sequence
        case SeqStreamHeader => StreamHeaderState()
        case SeqBlockStart => BlockState()
        case SeqBlockHeader => HeaderState()
        case SeqBlockUncompress => Known() && NoIndex() && DataState()
        case SeqBlockPadding => PaddingState()
        case SeqBlockCheck => CheckState()
        case SeqIndex => Known() && IndexState()
        case SeqIndexPadding => Known() && IndexPaddingState()
        case SeqIndexCrc32 => IndexCrcState()
        case SeqStreamFooter => FooterState()
    }

    /** Where the machine is. */
    ghost function Abs(): State
      reads this, temp, unpacker
      decreases SEAL + 1, raw
    {
      SealedAbs(SEAL)
    }

    ghost function SealedAbs(seal: nat): State
      reads this, temp, unpacker
      decreases seal, raw
    {
      if seal > 0 then SealedAbs(seal - 1) else
        match sequence
        case SeqStreamHeader => InStreamHeader(Got())
        case SeqBlockStart => AtBlock(sum)
        case SeqBlockHeader => InBlockHeader(sum, Got())
        case SeqBlockUncompress => DataAt()
        case SeqBlockPadding => Expect(Zeros(Pad4(blockCompressed)) + CheckLeft(), AtBlock(sum))
        case SeqBlockCheck => Expect(CheckLeft(), AtBlock(sum))
        case SeqIndex => InIndex(sum, field, part, indexCount, base, raw)
        case SeqIndexPadding => AfterIndex(sum, indexHash, raw)
        case SeqIndexCrc32 => IndexCrcAt()
        case SeqStreamFooter => FooterAt()
    }

    lemma StateIs()
      ensures StateOk() == SealedOk(0) && Abs() == SealedAbs(0)
    {
      assert SealedOk(1) == SealedOk(0) && SealedAbs(1) == SealedAbs(0);
      assert SealedOk(2) == SealedOk(1) && SealedAbs(2) == SealedAbs(1);
      assert SealedOk(3) == SealedOk(2) && SealedAbs(3) == SealedAbs(2);
    }

    ghost predicate Ready(b: XzBuf)
      reads this, temp, unpacker, b, b.input
    {
      StateOk() && InCall(b)
    }

    // within a call the Index may be ahead of what is counted
    ghost predicate InCall(b: XzBuf)
      reads this, b, b.input
    {
      && b.Valid() && b.input != temp && b.output != temp
      && (sequence.SeqIndex? || sequence.SeqIndexPadding? ==> inStart <= b.inPos && raw == summed + b.input[inStart..b.inPos])
    }

    // between two calls it is not
    ghost predicate Between()
      reads this`sequence, this`raw, this`summed
    {
      sequence.SeqIndex? || sequence.SeqIndexPadding? ==> raw == summed
    }

    /** Everything decoded so far. */
    ghost function Produced(): seq<byte>
      reads this`sequence, this`sum, unpacker
    {
      if sequence.SeqStreamHeader? then [] else if sequence.SeqBlockUncompress? then sum.out + Unpacked() else sum.out
    }

    /** Between two calls, when `taken` was read and `emitted` was written since the beginning of the stream. */
    ghost predicate Valid(taken: seq<byte>, emitted: seq<byte>)
      reads this, temp, unpacker
    {
      && Wired() && StateOk() && Between() && emitted == Produced()
      && Feed(unpacker.u, InStreamHeader([]), taken) == Abs()
    }

    /** xz_dec_init and xz_dec_reset */
    constructor (u: Setup, f: Filters)
      requires Sane(u)
      ensures Valid([], []) && unpacker.u == u
      ensures fresh(temp) && fresh(unpacker)
    {
      crcTable := new Crc32();
      unpacker := new Unpacker(u, f);
      temp := new byte[1024];
      sequence, allowBufError, pos, crc32, tempPos, tempSize := SeqStreamHeader, false, 0, 0, 0, 12;
      blockCompressed, blockUncompressed, blockCount, blockHash := 0, 0, 0, NO_HASH;
      indexSequence, indexSize, indexCount, indexHash := SeqIndexCount, 0, 0, NO_HASH;
      new;
      StateIs();
      FeedNothing(u, InStreamHeader([]));
      assert Got() == [];
    }

    /** dec_vli, when the bytes `part` of the integer were read before. */
    method DecVli(input: array<byte>, at: nat, size: nat, ghost part: seq<byte>) returns (ret: XzRet, at': nat)
      requires at <= size <= input.Length
      requires pos == 7 * |part| && Continuing(part) && |part| < VLI_BYTES_MAX && (pos > 0 ==> vli == VliValue(part))
      modifies `pos, `vli
      ensures at <= at' <= size && (ret == XzOk || ret == XzStreamEnd || ret == XzDataError)
      ensures var whole := part + input[at..at'];
        && (ret == XzOk ==>
             && at' == size && Continuing(whole) && |whole| < VLI_BYTES_MAX && pos == 7 * |whole|
             && (pos > 0 ==> vli == VliValue(whole)))
        && (ret == XzStreamEnd ==> at < at' && whole == VliBytes(vli) && vli < TWO63 && pos == 0)
        && (ret == XzDataError ==> at < at' && Refused(whole))
    {
      if pos == 0 {
        vli := 0;
      }
      at' := at;
      assert part + input[at..at'] == part;
      while at' < size
        invariant at <= at' <= size
        invariant var whole := part + input[at..at'];
          Continuing(whole) && |whole| < VLI_BYTES_MAX && pos == 7 * |whole| && vli == VliValue(whole)
      {
        ghost var whole := part + input[at..at'];
        var b := input[at'];
        at' := at' + 1;
        assert part + input[at..at'] == whole + [b];
        ret := VliByte(b, whole);
        if ret != XzOk {
          return;
        }
      }
      ret := XzOk;
    }

    // one round of the loop of dec_vli
    method VliByte(b: byte, ghost whole: seq<byte>) returns (ret: XzRet)
      requires Continuing(whole) && |whole| < VLI_BYTES_MAX && pos == 7 * |whole| && vli == VliValue(whole)
      modifies `pos, `vli
      ensures ret == XzOk || ret == XzStreamEnd || ret == XzDataError
      ensures var w := whole + [b];
        && (ret == XzOk ==> Continuing(w) && |w| < VLI_BYTES_MAX && pos == 7 * |w| && vli == VliValue(w))
        && (ret == XzStreamEnd ==> w == VliBytes(vli) && vli < TWO63 && pos == 0)
        && (ret == XzDataError ==> Refused(w))
    {
      // the bits of the new byte are above those of vli, so that or-ing is adding
      VliAppend(whole, b);
      vli := vli + b % 128 * Pow128(pos / 7);
      assert (whole + [b])[..|whole|] == whole;
      if b < 128 {
        if b == 0 && pos != 0 {
          return XzDataError;
        }
        pos := 0;
        VliExact(whole, b, vli);
        VliIn63Bits(vli);
        return XzStreamEnd;
      }
      pos := pos + 7;
      if pos == 7 * VLI_BYTES_MAX {
        return XzDataError;
      }
      ret := XzOk;
    }

    // fill_temp
    method FillTemp(b: XzBuf) returns (done: bool)
      requires b.Valid() && temp.Length == 1024 && temp != b.input && tempPos < tempSize <= 1024
      modifies `tempPos, temp, b`inPos
      ensures b.Valid() && old(b.inPos) <= b.inPos <= b.inSize && b.input[..] == old(b.input[..])
      ensures var n := old(tempPos) + (b.inPos - old(b.inPos));
        && n <= tempSize && temp[..n] == old(temp[..tempPos]) + b.input[old(b.inPos)..b.inPos]
        && done == (n == tempSize) && tempPos == (if done then 0 else n) && (!done ==> b.inPos == b.inSize)
    {
      var n := Min(b.inSize - b.inPos, tempSize - tempPos);
      ghost var t := temp[..];
      MemCopy(b.input, b.inPos, temp, tempPos, n);
      OverwriteIs(t, tempPos, b.input[..][b.inPos..b.inPos + n]);
      b.inPos := b.inPos + n;
      tempPos := tempPos + n;
      if tempPos == tempSize {
        tempPos := 0;
        return true;
      }
      return false;
    }

    /** crc32_validate: the next bytes must be those of crc32. */
    method Crc32Validate(b: XzBuf) returns (ret: XzRet)
      requires b.Valid() && pos % 8 == 0 && pos < 32
      modifies `pos, `crc32, b`inPos
      ensures b.Valid() && old(b.inPos) <= b.inPos && (ret == XzOk || ret == XzStreamEnd || ret == XzDataError)
      ensures var w, t := Le(old(crc32), 4)[old(pos) / 8..], b.input[old(b.inPos)..b.inPos];
        && (ret == XzOk ==>
             && t < w && pos % 8 == 0 && pos < 32 && pos / 8 == old(pos) / 8 + |t|
             && crc32 == old(crc32) && b.inPos == b.inSize)
        && (ret == XzStreamEnd ==> t == w && pos == 0 && crc32 == 0)
        && (ret == XzDataError ==> Mismatch(w, t))
    {
      BytesLeft(crc32, pos);
      ghost var pos0, in0 := pos, b.inPos;
      ret := Crc32Bytes(b, Le(crc32, 4)[pos / 8..]);
      BitsToBytes(pos0, b.inPos - in0);
      if ret == XzStreamEnd {
        crc32 := 0;
        pos := 0;
      }
    }

    lemma BitsToBytes(p: nat, k: nat)
      requires p % 8 == 0
      ensures (p + 8 * k) % 8 == 0 && (p + 8 * k) / 8 == p / 8 + k
    {
    }

    // the loop of crc32_validate; `w` are the bytes that are to come
    method Crc32Bytes(b: XzBuf, ghost w: seq<byte>) returns (ret: XzRet)
      requires b.Valid() && w != [] && BytesAt(crc32, pos, w)
      modifies `pos, b`inPos
      ensures b.Valid() && old(b.inPos) <= b.inPos && (ret == XzOk || ret == XzStreamEnd || ret == XzDataError)
      ensures var t := b.input[old(b.inPos)..b.inPos];
        && (ret == XzOk ==> t < w && pos == old(pos) + 8 * |t| < 32 && b.inPos == b.inSize)
        && (ret == XzStreamEnd ==> t == w)
        && (ret == XzDataError ==> Mismatch(w, t))
    {
      ghost var in0, k: nat := b.inPos, 0;
      assert w[0..] == w && b.input[in0..in0] == w[..0];
      while true
        invariant b.Valid() && b.inPos == in0 + k && pos == old(pos) + 8 * k && k < |w|
        invariant BytesAt(crc32, pos, w[k..]) && b.input[in0..b.inPos] == w[..k]
        decreases |w| - k
      {
        if b.inPos == b.inSize {
          return XzOk;
        }
        var good := OneByte(b, in0, w, k);
        if !good {
          return XzDataError;
        }
        pos, k := pos + 8, k + 1;
        if pos >= 32 {
          return XzStreamEnd;
        }
      }
    }

    method OneByte(b: XzBuf, ghost in0: nat, ghost w: seq<byte>, ghost k: nat) returns (good: bool)
      requires b.Valid() && b.inPos < b.inSize && b.inPos == in0 + k && k < |w|
      requires BytesAt(crc32, pos, w[k..]) && b.input[in0..b.inPos] == w[..k]
      modifies b`inPos
      ensures b.inPos == old(b.inPos) + 1
      ensures if good then b.input[in0..b.inPos] == w[..k + 1] else Mismatch(w, b.input[in0..b.inPos])
      ensures BytesAt(crc32, pos + 8, w[k + 1..]) && (pos + 8 >= 32 <==> k + 1 == |w|)
    {
      var x := NextByte();
      BytesOn(crc32, pos, w, k, x);
      assert b.input[in0..b.inPos + 1] == w[..k] + [b.input[b.inPos]];
      OneMoreByte(w, k, b.input[b.inPos]);
      b.inPos := b.inPos + 1;
      good := x == b.input[b.inPos - 1];
    }

    // (s->crc32 >> s->pos) & 0xFF
    function NextByte(): byte
      reads `crc32, `pos
    {
      ByteOf(crc32, pos)
    }

    // get_le32
    function GetLe32(k: nat): (x: Word)
      requires k + 4 <= temp.Length
      reads temp
      ensures forall y: Word :: x == y <==> Le(y, 4) == temp[k..k + 4]
    {
      LeIsWord(temp[k..k + 4]);
      LeValue(temp[k..k + 4])
    }

    /** An optional field of the Block Header. */
    method OptField(flag: bool, n: nat) returns (ok: bool, o: Option<nat>)
      requires temp.Length == 1024 && pos == 0 && tempPos <= n <= 1024
      modifies `pos, `vli, `tempPos
      ensures old(tempPos) <= tempPos <= n
      ensures ok ==> pos == 0 && o.Some? == flag && InRange(o)
      ensures ok ==> temp[old(tempPos)..n] == OptBytes(o) + temp[tempPos..n]
      ensures !ok ==> NoOpt(flag, temp[old(tempPos)..n])
    {
      ok, o := true, None;
      if flag {
        var at, ret := tempPos, XzOk;
        ret, tempPos := DecVli(temp, at, n, []);
        assert [] + temp[at..tempPos] == temp[at..tempPos];
        assert temp[at..n] == temp[at..tempPos] + temp[tempPos..n];
        if ret != XzStreamEnd {
          NotVli(temp[at..n], tempPos - at);
          return false, None;
        }
        o := Some(vli);
      } else {
        assert [] + temp[tempPos..n] == temp[tempPos..n];
      }
    }

    /** The Filter Flags of the Block Header. */
    method FilterFlags(bcj: bool, n: nat) returns (ret: XzRet, f: Filters)
      requires temp.Length == 1024 && tempPos <= n <= 1024
      modifies `tempPos
      ensures ret == XzOk || IsError(ret)
      ensures old(tempPos) <= tempPos <= n
      ensures ret == XzOk ==> f.bcj.Some? == bcj && FiltersOk(unpacker.u, f)
      ensures ret == XzOk ==> temp[old(tempPos)..n] == FilterBytes(f) + temp[tempPos..n]
      ensures ret != XzOk ==> NoFilters(unpacker.u, bcj, temp[old(tempPos)..n])
    {
      ghost var s, at := temp[tempPos..n], tempPos;
      FiltersShape(unpacker.u, bcj, s);
      ret, f := ReadFlags(bcj, n);
      if ret == XzOk {
        assert temp[tempPos..n] == s[tempPos - at..];
      }
    }

    method ReadFlags(bcj: bool, n: nat) returns (ret: XzRet, f: Filters)
      requires temp.Length == 1024 && tempPos <= n <= 1024
      modifies `tempPos
      ensures ret == XzOk || IsError(ret)
      ensures old(tempPos) <= tempPos <= n
      ensures var s := temp[old(tempPos)..n];
        && (ret == XzOk <==> HasFilters(unpacker.u, bcj, s))
        && (ret == XzOk ==> var k := if bcj then 2 else 0;
             tempPos == old(tempPos) + k + 3 && f == Filters(if bcj then Some(s[0]) else None, s[k + 2]))
    {
      ghost var s, at := temp[tempPos..n], tempPos;
      assert forall i :: 0 <= i < |s| ==> s[i] == temp[at + i];
      f := Filters(None, 0);
      var id, props;
      ret, id := BcjFlags(bcj, n);
      if ret == XzOk {
        ret, props := Lzma2Flags(n);
        f := Filters(id, props);
      }
    }

    method BcjFlags(bcj: bool, n: nat) returns (ret: XzRet, id: Option<nat>)
      requires temp.Length == 1024 && tempPos <= n <= 1024
      modifies `tempPos
      ensures ret == XzOk || IsError(ret)
      ensures old(tempPos) <= tempPos <= n
      ensures ret == XzOk <==> (bcj ==> old(tempPos) + 2 <= n && unpacker.u.knowsBcj(temp[old(tempPos)]) && temp[old(tempPos) + 1] == 0)
      ensures ret == XzOk ==>
        tempPos == old(tempPos) + (if bcj then 2 else 0) && id == if bcj then Some(temp[old(tempPos)]) else None
    {
      id := None;
      if bcj {
        if n - tempPos < 2 {
          return XzOptionsError, id;
        }
        id := Some(temp[tempPos]);
        tempPos := tempPos + 1;
        if !unpacker.u.knowsBcj(id.value) {
          return XzOptionsError, id;
        }
        tempPos := tempPos + 1;
        if temp[tempPos - 1] != 0 {
          return XzOptionsError, id;
        }
      }
      ret := XzOk;
    }

    method Lzma2Flags(n: nat) returns (ret: XzRet, props: byte)
      requires temp.Length == 1024 && tempPos <= n <= 1024
      modifies `tempPos
      ensures ret == XzOk || IsError(ret)
      ensures old(tempPos) <= tempPos <= n
      ensures ret == XzOk <==>
        && old(tempPos) + 3 <= n && temp[old(tempPos)] == 0x21 && temp[old(tempPos) + 1] == 0x01
        && unpacker.u.takesProps(temp[old(tempPos) + 2])
      ensures ret == XzOk ==> tempPos == old(tempPos) + 3 && props == temp[old(tempPos) + 2]
    {
      props := 0;
      if n - tempPos < 2 {
        return XzDataError, props;
      }
      tempPos := tempPos + 1;
      if temp[tempPos - 1] != 0x21 {
        return XzOptionsError, props;
      }
      tempPos := tempPos + 1;
      if temp[tempPos - 1] != 0x01 {
        return XzOptionsError, props;
      }
      if n - tempPos < 1 {
        return XzDataError, props;
      }
      props := temp[tempPos];
      tempPos := tempPos + 1;
      if !unpacker.u.takesProps(props) {
        return XzOptionsError, props;
      }
      ret := XzOk;
    }

    // the rest of the Block Header must be zero
    method HeaderPadding(n: nat) returns (ok: bool)
      requires temp.Length == 1024 && tempPos <= n <= 1024
      modifies `tempPos
      ensures ok <==> temp[old(tempPos)..n] == Zeros(n - old(tempPos))
    {
      var at := tempPos;
      ZerosAre(n - at);
      while tempPos < n
        invariant at <= tempPos <= n && forall i :: at <= i < tempPos ==> temp[i] == 0
      {
        tempPos := tempPos + 1;
        if temp[tempPos - 1] != 0 {
          assert temp[at..n][tempPos - 1 - at] != 0;
          return false;
        }
      }
      ok := true;
    }

    /** dec_block_header: accepts the Block Headers that are supported, and keeps what they say. */
    method DecBlockHeader() returns (ret: XzRet, ghost h: Header)
      requires temp.Length == 1024 && pos == 0 && tempSize <= 1024 && Framed(temp[..tempSize]) && crcTable.Valid()
      modifies `tempSize, `tempPos, `pos, `vli, `headerCompressed, `headerUncompressed
      modifies `blockCompressed, `blockUncompressed, unpacker`filters, unpacker`eaten, unpacker`made
      ensures ret == XzOk || IsError(ret)
      ensures ret == XzOk ==>
        && HeaderIs(temp[..old(tempSize)], h) && Supports(unpacker.u, h.filters)
        && headerCompressed == h.compressed && headerUncompressed == h.uncompressed
        && unpacker.Valid() && unpacker.filters == h.filters && unpacker.eaten == [] && unpacker.made == 0
        && pos == 0 && blockCompressed == 0 && blockUncompressed == 0 && tempPos == 0
      ensures ret != XzOk ==> Refuses(unpacker.u, temp[..old(tempSize)])
    {
      ghost var t := temp[..tempSize];
      h := Header(None, None, Filters(None, 0));
      tempSize := tempSize - 4;
      var n := tempSize;
      var good := Checked(n);
      if good {
        ret, h := HeaderFields(n, t);
      } else {
        RefuseStart(unpacker.u, t);
        ret := XzDataError;
      }
      if ret == XzOk {
        tempPos := 0;
        blockCompressed, blockUncompressed := 0, 0;
      }
    }

    // what follows the CRC32 test
    method HeaderFields(n: nat, ghost t: seq<byte>) returns (ret: XzRet, ghost h: Header)
      requires temp.Length == 1024 && pos == 0 && n + 4 == |t| <= 1024 && Framed(t) && t == temp[..|t|]
      requires t[n..] == Le(Crc(t[..n], 0), 4)
      modifies `tempPos, `pos, `vli, `headerCompressed, `headerUncompressed
      modifies unpacker`filters, unpacker`eaten, unpacker`made
      ensures ret == XzOk || IsError(ret)
      ensures ret == XzOk ==>
        && pos == 0 && HeaderIs(t, h) && Supports(unpacker.u, h.filters)
        && headerCompressed == h.compressed && headerUncompressed == h.uncompressed
        && unpacker.Valid() && unpacker.filters == h.filters && unpacker.eaten == [] && unpacker.made == 0
      ensures ret != XzOk ==> Refuses(unpacker.u, t)
    {
      h := Header(None, None, Filters(None, 0));
      tempPos := 2;
      if FlagReserved(temp[1]) {
        RefuseStart(unpacker.u, t);
        return XzOptionsError, h;
      }
      var ok := Sizes(n, t);
      if !ok {
        return XzDataError, h;
      }
      ret, h := FiltersAndPadding(n, t);
    }

    // the CRC32 of the first `n` bytes follows them
    method Checked(n: nat) returns (ok: bool)
      requires n + 4 <= temp.Length && crcTable.Valid()
      ensures ok <==> temp[..n + 4][n..] == Le(Crc(temp[..n + 4][..n], 0), 4)
    {
      assert temp[0..n] == temp[..n + 4][..n] && temp[n..n + 4] == temp[..n + 4][n..];
      var sum := crcTable.Sum(temp, 0, n, 0);
      ok := sum == GetLe32(n);
    }

    // Compressed Size and Uncompressed Size
    method Sizes(n: nat, ghost t: seq<byte>) returns (ok: bool)
      requires temp.Length == 1024 && pos == 0 && tempPos == 2 && n + 4 == |t| <= 1024 && Framed(t) && t == temp[..|t|]
      modifies `tempPos, `pos, `vli, `headerCompressed, `headerUncompressed
      ensures ok ==>
        && pos == 0 && tempPos <= n && InRange(headerCompressed) && InRange(headerUncompressed)
        && headerCompressed.Some? == FlagCompressed(t[1]) && headerUncompressed.Some? == FlagUncompressed(t[1])
        && t[2..n] == OptBytes(headerCompressed) + (OptBytes(headerUncompressed) + temp[tempPos..n])
      ensures !ok ==> Refuses(unpacker.u, t)
    {
      SameSlice(temp[..|t|], t, 2, n);
      assert temp[..|t|][2..n] == temp[2..n];
      var o;
      ok, o := OptField(FlagCompressed(temp[1]), n);
      if !ok {
        RefuseCompressed(unpacker.u, t);
        return;
      }
      headerCompressed := o;
      ghost var s := temp[tempPos..n];
      ok, o := OptField(FlagUncompressed(temp[1]), n);
      if !ok {
        RefuseUncompressed(unpacker.u, t, headerCompressed, s);
        return;
      }
      headerUncompressed := o;
    }

    // Filter Flags and Header Padding
    method FiltersAndPadding(n: nat, ghost t: seq<byte>) returns (ret: XzRet, ghost h: Header)
      requires temp.Length == 1024 && tempPos <= n && n + 4 == |t| <= 1024 && Framed(t) && t == temp[..|t|]
      requires InRange(headerCompressed) && InRange(headerUncompressed) && !FlagReserved(t[1])
      requires headerCompressed.Some? == FlagCompressed(t[1]) && headerUncompressed.Some? == FlagUncompressed(t[1])
      requires t[2..n] == OptBytes(headerCompressed) + (OptBytes(headerUncompressed) + temp[tempPos..n])
      requires t[n..] == Le(Crc(t[..n], 0), 4)
      modifies `tempPos, unpacker`filters, unpacker`eaten, unpacker`made
      ensures ret == XzOk || IsError(ret)
      ensures ret == XzOk ==>
        && HeaderIs(t, h) && Supports(unpacker.u, h.filters)
        && headerCompressed == h.compressed && headerUncompressed == h.uncompressed
        && unpacker.Valid() && unpacker.filters == h.filters && unpacker.eaten == [] && unpacker.made == 0
      ensures ret != XzOk ==> Refuses(unpacker.u, t)
    {
      ghost var s := temp[tempPos..n];
      var f;
      ret, f := FilterFlags(FlagBcj(temp[1]), n);
      h := Header(headerCompressed, headerUncompressed, f);
      if ret != XzOk {
        RefuseFilters(unpacker.u, t, headerCompressed, headerUncompressed, s);
        return;
      }
      unpacker.Reset(f);
      var ok := PaddingGood(n, t, h);
      if !ok {
        ret := XzOptionsError;
      }
    }

    method PaddingGood(n: nat, ghost t: seq<byte>, ghost h: Header) returns (ok: bool)
      requires temp.Length == 1024 && tempPos <= n && n + 4 == |t| <= 1024 && Framed(t)
      requires InRange(h.compressed) && InRange(h.uncompressed) && !FlagReserved(t[1]) && FiltersOk(unpacker.u, h.filters)
      requires h.compressed.Some? == FlagCompressed(t[1]) && h.uncompressed.Some? == FlagUncompressed(t[1])
      requires h.filters.bcj.Some? == FlagBcj(t[1]) && t[n..] == Le(Crc(t[..n], 0), 4)
      requires t[2..n] == Fields(h, temp[tempPos..n])
      modifies `tempPos
      ensures if ok then HeaderIs(t, h) else Refuses(unpacker.u, t)
    {
      ghost var s := temp[tempPos..n];
      ok := HeaderPadding(n);
      if ok {
        FlagsBack(t[1], h);
        HeaderParts(t, h, |s|);
      } else {
        RefusePadding(unpacker.u, t, h, s);
      }
    }

    /** dec_stream_header */
    method DecStreamHeader() returns (ret: XzRet)
      requires temp.Length == 1024 && crcTable.Valid()
      modifies `checkType
      ensures ret == XzOk || IsError(ret)
      ensures ret == XzOk <==> temp[7] <= 1 && temp[..12] == StreamHeader(temp[7])
      ensures ret == if temp[..6] != [0xFD, 0x37, 0x7A, 0x58, 0x5A, 0x00] then XzFormatError
        else if temp[8..12] != Le(Crc(temp[6..8], 0), 4) then XzDataError
        else if temp[6] != 0 || temp[7] > 1 then XzOptionsError else XzOk
      ensures ret == XzOk ==> checkType == temp[7]
    {
      StreamHeaderParts(temp[..12]);
      assert temp[6..6 + 2] == [temp[6], temp[7]];
      assert temp[..12][..6] == temp[..6] && temp[..12][8..] == temp[8..8 + 4];
      if temp[..6] != [0xFD, '7' as int, 'z' as int, 'X' as int, 'Z' as int, 0] {
        return XzFormatError;
      }
      var sum := crcTable.Sum(temp, 6, 2, 0);
      if sum != GetLe32(8) {
        return XzDataError;
      }
      if temp[6] != 0 {
        return XzOptionsError;
      }
      checkType := temp[7];
      if checkType > 1 {
        return XzOptionsError;
      }
      ret := XzOk;
    }

    /** dec_stream_footer */
    method DecStreamFooter() returns (ret: XzRet)
      requires temp.Length == 1024 && crcTable.Valid() && checkType <= 1 && indexSize >= 4
      ensures ret == XzStreamEnd || ret == XzDataError
      ensures ret == XzStreamEnd <==> indexSize / 4 < TWO32 && temp[..12] == StreamFooter(checkType, indexSize)
    {
      FooterParts(temp[..12], checkType, indexSize);
      assert temp[..12][..4] == temp[0..0 + 4] && temp[..12][4..8] == temp[4..4 + 4];
      assert temp[..12][4..10] == temp[4..4 + 6] && temp[..12][10..] == temp[10..12];
      if temp[10..12] != ['Y' as int, 'Z' as int] {
        return XzDataError;
      }
      var sum := crcTable.Sum(temp, 4, 6, 0);
      if sum != GetLe32(0) {
        return XzDataError;
      }
      if indexSize / 4 != GetLe32(4) {
        return XzDataError;
      }
      if temp[8] != 0 || temp[9] != checkType {
        return XzDataError;
      }
      ret := XzStreamEnd;
    }

    /** SEQ_STREAM_HEADER */
    method OnStreamHeader(b: XzBuf) returns (v: Verdict)
      requires Wired() && StreamHeaderState() && InCall(b) && sequence.SeqStreamHeader?
      modifies `tempPos, temp, b`inPos, `sequence, `checkType, `sum
      ensures b.Valid() && old(b.inPos) <= b.inPos && b.input[..] == old(b.input[..])
      ensures var s := Feed(unpacker.u, old(InStreamHeader(Got())), b.input[old(b.inPos)..b.inPos]);
        match v
        case Proceed => b.inPos > old(b.inPos) && InCall(b) && sequence.SeqBlockStart? && BlockState() && s == AtBlock(sum) && sum.out == []
        case Stop(ret) =>
          if ret == XzOk then b.UsedUp() && sequence.SeqStreamHeader? && StreamHeaderState() && s == InStreamHeader(Got())
          else IsError(ret) && s == Failed
    {
      var done := CollectStreamHeader(b);
      if !done {
        return Stop(XzOk);
      }
      sequence := SeqBlockStart;
      var ret := DecStreamHeader();
      if ret != XzOk {
        return Stop(ret);
      }
      sum := Sum(checkType, 0, NO_HASH, []);
      v := Proceed;
    }

    method CollectStreamHeader(b: XzBuf) returns (done: bool)
      requires temp.Length == 1024 && b.Valid() && b.input != temp && tempPos < tempSize == 12
      modifies `tempPos, temp, b`inPos
      ensures b.Valid() && old(b.inPos) <= b.inPos && b.input[..] == old(b.input[..])
      ensures done ==>
        && tempPos == 0 && b.inPos > old(b.inPos)
        && Feed(unpacker.u, old(InStreamHeader(Got())), b.input[old(b.inPos)..b.inPos]) == AfterStreamHeader(temp[..12])
      ensures !done ==>
        && b.UsedUp() && tempPos < tempSize
        && Feed(unpacker.u, old(InStreamHeader(Got())), b.input[old(b.inPos)..b.inPos]) == InStreamHeader(Got())
    {
      ghost var got, in0 := temp[..tempPos], b.inPos;
      done := FillTemp(b);
      ghost var t := b.input[in0..b.inPos];
      StreamHeaderFed(unpacker.u, got, t);
      if done {
        assert got + t == temp[..12] && (got + t)[..12] == got + t && (got + t)[12..] == [];
        FeedNothing(unpacker.u, AfterStreamHeader(temp[..12]));
      }
    }

    /** SEQ_BLOCK_START, when the next byte says that the Index follows. */
    method StartIndex(b: XzBuf)
      requires BlockState() && b.Valid() && b.inPos < b.inSize
      modifies b`inPos, `inStart, `part, `field, `base, `raw, `summed
      ensures b.inPos == old(b.inPos) + 1 && Held(b) && Known() && IndexState()
      ensures old(b.input[b.inPos]) == 0 ==> IndexAt() == AtIndex(sum)
    {
      inStart := b.inPos;
      BeginIndex(b.input[b.inPos]);
      assert b.input[b.inPos..b.inPos + 1] == raw && summed + raw == raw;
      b.inPos := b.inPos + 1;
    }

    ghost method BeginIndex(x: byte)
      requires BlockState()
      modifies `part, `field, `base, `raw, `summed
      ensures IndexState() && raw == [x] && summed == []
      ensures x == 0 ==> IndexAt() == AtIndex(sum)
    {
      part, field, base, raw, summed := [], Count, NO_HASH, [x], [];
      NothingSummed();
    }

    // where the machine is at a Block Header, of which no byte may have been read
    ghost function AtHeader(): State
      reads this`tempPos, this`sum, temp
    {
      if tempPos == 0 then AtBlock(sum) else InBlockHeader(sum, Got())
    }

    /** SEQ_BLOCK_HEADER */
    method CollectHeader(b: XzBuf) returns (done: bool)
      requires temp.Length == 1024 && b.Valid() && b.input != temp && tempPos < tempSize <= 1024
      requires if tempPos > 0 then temp[0] != 0 && HeaderSize(temp[0]) == tempSize
        else b.inPos < b.inSize && b.input[b.inPos] != 0 && HeaderSize(b.input[b.inPos]) == tempSize
      modifies `tempPos, temp, b`inPos
      ensures b.Valid() && old(b.inPos) <= b.inPos && b.input[..] == old(b.input[..])
      ensures done ==>
        && tempPos == 0 && b.inPos > old(b.inPos) && Framed(temp[..tempSize])
        && Feed(unpacker.u, old(AtHeader()), b.input[old(b.inPos)..b.inPos]) == AfterBlockHeader(unpacker.u, sum, temp[..tempSize])
      ensures !done ==>
        && b.UsedUp() && 0 < tempPos < tempSize && HeaderSize(temp[0]) == tempSize && temp[0] != 0
        && Feed(unpacker.u, old(AtHeader()), b.input[old(b.inPos)..b.inPos]) == InBlockHeader(sum, Got())
    {
      ghost var got, in0, u := temp[..tempPos], b.inPos, unpacker.u;
      done := FillTemp(b);
      ghost var t := b.input[in0..b.inPos];
      ghost var g := got + t;
      assert g == if done then temp[..tempSize] else Got();
      if t == [] {
        FeedNothing(u, InBlockHeader(sum, got));
      } else {
        assert g[0] == if got == [] then b.input[in0] else got[0];
        BlockHeaderFed(u, sum, got, t);
      }
    }

    // the rest of SEQ_BLOCK_HEADER, when the Block Header is complete
    method ReadHeader(ghost s: State) returns (ret: XzRet)
      requires temp.Length == 1024 && pos == 0 && tempSize == headerSize <= 1024 && Framed(temp[..tempSize])
      requires crcTable.Valid() && crc32 == 0 && s == AfterBlockHeader(unpacker.u, sum, temp[..tempSize])
      modifies `tempSize, `tempPos, `pos, `vli, `headerCompressed, `headerUncompressed
      modifies `blockCompressed, `blockUncompressed, unpacker`filters, unpacker`eaten, unpacker`made, `h
      ensures ret == XzOk || IsError(ret)
      ensures ret == XzOk ==> DataState() && unpacker.made == 0 && s == DataAt()
      ensures ret != XzOk ==> s == Failed
    {
      ghost var t := temp[..tempSize];
      ghost var hd;
      ret, hd := DecBlockHeader();
      if ret == XzOk {
        h := hd;
        HeaderTold(s, t);
      }
    }

    lemma HeaderTold(s: State, t: seq<byte>)
      requires HeaderIs(t, h) && Supports(unpacker.u, h.filters) && unpacker.eaten == [] && unpacker.made == 0
      requires s == AfterBlockHeader(unpacker.u, sum, t) && headerSize == |t| && crc32 == 0
      ensures s == DataAt() && crc32 == if checkType == 1 then Crc(Unpacked(), 0) else 0
    {
      HeaderSays(unpacker.u, sum, t, h);
      NothingSummed();
    }

    // the filters run; dec_block counts what they take and hand out
    method RunFilters(b: XzBuf) returns (ret: XzRet, ghost sent: seq<byte>)
      requires Sane(unpacker.u) && DataCounted() && b.Valid()
      modifies unpacker`eaten, unpacker`made, b`inPos, b`outPos, b.output, `inStart, `outStart, `blockCompressed, `blockUncompressed
      ensures b.Valid() && old(b.inPos) <= b.inPos && old(b.outPos) <= b.outPos && b.input[..] == old(b.input[..])
      ensures ret == XzOk || ret == XzStreamEnd || ret == XzDataError
      ensures ret == XzOk ==> b.UsedUp()
      ensures ret == XzDataError ==> KeptAround(b) && Feed(unpacker.u, old(DataAt()), old(Offered(b))) == Failed
      ensures ret != XzDataError ==>
        && DataCounted() && Feed(unpacker.u, old(DataAt()), b.input[old(b.inPos)..b.inPos]) == DataAt()
        && outStart == old(b.outPos) && b.outPos == outStart + |sent|
        && Written(old(b.output[..]), outStart, sent, b.output[..], b.outSize)
        && Unpacked() == old(Unpacked()) + sent
      ensures var r := unpacker.u.unpack(h.filters, unpacker.eaten);
        ret == XzStreamEnd ==> r.status == Over && unpacker.made == |r.out|
    {
      inStart := b.inPos;
      outStart := b.outPos;
      ret, sent := CallFilters(b);
      blockCompressed := blockCompressed + (b.inPos - inStart);
      blockUncompressed := blockUncompressed + (b.outPos - outStart);
    }

    // the call itself
    method CallFilters(b: XzBuf) returns (ret: XzRet, ghost sent: seq<byte>)
      requires Sane(unpacker.u) && unpacker.Valid() && unpacker.filters == h.filters && b.Valid()
      modifies unpacker`eaten, unpacker`made, b`inPos, b`outPos, b.output
      ensures b.Valid() && old(b.inPos) <= b.inPos && old(b.outPos) <= b.outPos && b.input[..] == old(b.input[..])
      ensures ret == XzOk || ret == XzStreamEnd || ret == XzDataError
      ensures ret == XzOk ==> b.UsedUp()
      ensures ret == XzDataError ==> KeptAround(b) && Feed(unpacker.u, old(DataAt()), old(Offered(b))) == Failed
      ensures ret != XzDataError ==>
        && unpacker.Valid() && Feed(unpacker.u, old(DataAt()), b.input[old(b.inPos)..b.inPos]) == DataAt()
        && |unpacker.eaten| == |old(unpacker.eaten)| + (b.inPos - old(b.inPos))
        && unpacker.made == old(unpacker.made) + |sent| && b.outPos == old(b.outPos) + |sent|
        && Written(old(b.output[..]), old(b.outPos), sent, b.output[..], b.outSize)
        && Unpacked() == old(Unpacked()) + sent
      ensures var r := unpacker.u.unpack(h.filters, unpacker.eaten);
        ret == XzStreamEnd ==> r.status == Over && unpacker.made == |r.out|
    {
      ghost var e0, m0, in0 := unpacker.eaten, unpacker.made, b.inPos;
      ghost var offered := Offered(b);
      ret := unpacker.Run(b);
      if ret == XzDataError {
        DataBreaks(unpacker.u, sum, headerSize, h, e0, offered);
        sent := [];
      } else {
        ghost var out := unpacker.u.unpack(h.filters, unpacker.eaten).out;
        sent := out[m0..unpacker.made];
        EatenOn(b, e0, in0);
        MadeMore(old(unpacker.u.unpack(h.filters, unpacker.eaten).out), out, m0, unpacker.made);
      }
    }

    // all the input of this call that is left
    ghost function Offered(b: XzBuf): seq<byte>
      reads b, b.input
    {
      if b.Valid() then b.input[b.inPos..b.inSize] else []
    }

    // an error changes nothing outside the output space
    twostate predicate KeptAround(b: XzBuf)
      reads b, b.output
    {
      old(b.Valid()) && b.output[..old(b.outPos)] == old(b.output[..b.outPos]) && b.output[b.outSize..] == old(b.output[b.outSize..])
    }

    // dec_block adds the new output to the CRC32
    method SumOutput(b: XzBuf, ghost before: seq<byte>, ghost o0: seq<byte>, ghost sent: seq<byte>)
      requires crcTable.Valid() && b.Valid() && outStart + |sent| == b.outPos && |o0| == b.output.Length
      requires Written(o0, outStart, sent, b.output[..], b.outSize)
      requires crc32 == if checkType == 1 then Crc(before, 0) else 0
      modifies `crc32
      ensures crc32 == if checkType == 1 then Crc(before + sent, 0) else 0
    {
      WrittenWhere(o0, outStart, sent, b.output[..], b.outSize);
      assert b.output[outStart..outStart + (b.outPos - outStart)] == b.output[..][outStart..b.outPos] == sent;
      if checkType == 1 {
        crc32 := crcTable.Sum(b.output, outStart, b.outPos - outStart, crc32);
        CrcSlices(before, sent, 0);
      }
    }

    // the bytes of the current Block handed out so far
    ghost function Unpacked(): seq<byte>
      reads unpacker
    {
      var out := unpacker.u.unpack(unpacker.filters, unpacker.eaten).out;
      if unpacker.made <= |out| then out[..unpacker.made] else []
    }

    lemma EatenOn(b: XzBuf, e0: seq<byte>, in0: nat)
      requires b.Valid() && in0 <= b.inPos && Sane(unpacker.u) && unpacker.filters == h.filters
      requires unpacker.eaten == e0 + b.input[in0..b.inPos]
      requires forall k :: |e0| <= k < |unpacker.eaten| ==> unpacker.u.unpack(h.filters, unpacker.eaten[..k]).status != Over
      ensures Feed(unpacker.u, Data(unpacker.u, sum, headerSize, h, e0), b.input[in0..b.inPos]) == DataAt()
    {
      var t := b.input[in0..b.inPos];
      forall k | 0 <= k < |t|
        ensures unpacker.u.unpack(h.filters, e0 + t[..k]).status != Over
      {
        assert e0 + t[..k] == unpacker.eaten[..|e0| + k];
      }
      DataGoesOn(unpacker.u, sum, headerSize, h, e0, t);
    }

    /** dec_block: SEQ_BLOCK_UNCOMPRESS. After an error the sums are not needed any more, so it makes no
        difference that the output is summed up before the sizes are compared. */
    method DecBlock(b: XzBuf) returns (ret: XzRet, ghost sent: seq<byte>)
      requires Wired() && Known() && NoIndex() && DataState() && b.Valid()
      modifies unpacker`eaten, unpacker`made, b`inPos, b`outPos, b.output, `inStart, `outStart, `blockCompressed, `blockUncompressed, `crc32
      modifies `blockHash, `blockCount, `sum
      ensures b.Valid() && old(b.inPos) <= b.inPos && old(b.outPos) <= b.outPos && b.input[..] == old(b.input[..])
      ensures ret == XzOk || ret == XzStreamEnd || ret == XzDataError
      ensures ret == XzOk ==> b.UsedUp()
      ensures ret == XzDataError ==> KeptAround(b) && Feed(unpacker.u, old(DataAt()), old(Offered(b))) == Failed
      ensures ret != XzDataError ==> b.outPos == old(b.outPos) + |sent| && Written(old(b.output[..]), old(b.outPos), sent, b.output[..], b.outSize)
      ensures var s := Feed(unpacker.u, old(DataAt()), b.input[old(b.inPos)..b.inPos]);
        && (ret == XzOk ==>
             && Known() && NoIndex() && DataState() && s == DataAt() && sum == old(sum)
             && Unpacked() == old(Unpacked()) + sent)
        && (ret == XzStreamEnd ==>
             && PaddingState() && s == Expect(Zeros(Pad4(blockCompressed)) + CheckLeft(), AtBlock(sum))
             && sum.out == old(sum.out) + (old(Unpacked()) + sent))
    {
      ghost var s0, in0 := DataAt(), b.inPos;
      ret, sent := RunAndSum(b);
      if ret != XzDataError {
        OfferedFails(b, s0, in0);
        ret := CheckSizes(ret);
      }
    }

    // the filters run, and their output is added to the CRC32
    method RunAndSum(b: XzBuf) returns (ret: XzRet, ghost sent: seq<byte>)
      requires Wired() && DataState() && b.Valid()
      modifies unpacker`eaten, unpacker`made, b`inPos, b`outPos, b.output, `inStart, `outStart, `blockCompressed, `blockUncompressed, `crc32
      ensures b.Valid() && old(b.inPos) <= b.inPos && old(b.outPos) <= b.outPos && b.input[..] == old(b.input[..])
      ensures ret == XzOk || ret == XzStreamEnd || ret == XzDataError
      ensures ret == XzOk ==> b.UsedUp()
      ensures KeptAround(b) && (ret == XzDataError ==> Feed(unpacker.u, old(DataAt()), old(Offered(b))) == Failed)
      ensures ret != XzDataError ==>
        && DataState() && Feed(unpacker.u, old(DataAt()), b.input[old(b.inPos)..b.inPos]) == DataAt()
        && b.outPos == old(b.outPos) + |sent| && Written(old(b.output[..]), old(b.outPos), sent, b.output[..], b.outSize)
        && Unpacked() == old(Unpacked()) + sent
      ensures var r := unpacker.u.unpack(h.filters, unpacker.eaten);
        ret == XzStreamEnd ==> r.status == Over && unpacker.made == |r.out|
    {
      ghost var before, o0 := Unpacked(), b.output[..];
      ret, sent := RunFilters(b);
      if ret != XzDataError {
        WrittenWhere(o0, outStart, sent, b.output[..], b.outSize);
        SumOutput(b, before, o0, sent);
      }
    }

    // the sizes are compared with those of the Block Header; at the end of the Block they are summed up
    method CheckSizes(r: XzRet) returns (ret: XzRet)
      requires Known() && NoIndex() && DataState() && (r == XzOk || r == XzStreamEnd)
      requires var u := unpacker.u.unpack(h.filters, unpacker.eaten);
        r == XzStreamEnd ==> u.status == Over && unpacker.made == |u.out|
      modifies `blockHash, `blockCount, `sum
      ensures ret == r || ret == XzDataError
      ensures ret == XzDataError ==> old(DataAt()) == Failed
      ensures ret == XzOk ==> Known() && DataState() && sum == old(sum) && DataAt() == old(DataAt())
      ensures ret == XzStreamEnd ==>
        && PaddingState() && old(DataAt()) == Expect(Zeros(Pad4(blockCompressed)) + CheckLeft(), AtBlock(sum))
        && sum.out == old(sum.out) + Unpacked()
    {
      SizesTell(r);
      ret := r;
      if Exceeds(blockCompressed, headerCompressed) || Exceeds(blockUncompressed, headerUncompressed) {
        ret := XzDataError;
      } else if r == XzStreamEnd {
        if Differs(blockCompressed, headerCompressed) || Differs(blockUncompressed, headerUncompressed) {
          ret := XzDataError;
        } else {
          BlockDone();
        }
      }
    }

    // a failure within the bytes consumed is one within the bytes offered
    lemma OfferedFails(b: XzBuf, s0: State, in0: nat)
      requires b.Valid() && in0 <= b.inPos
      ensures Feed(unpacker.u, s0, b.input[in0..b.inPos]) == Failed ==> Feed(unpacker.u, s0, b.input[in0..b.inSize]) == Failed
    {
      var t := b.input[in0..b.inSize];
      assert t[..b.inPos - in0] == b.input[in0..b.inPos];
      FailsFurther(unpacker.u, s0, t, b.inPos - in0);
    }

    // sizes that do not agree with the Block Header mean failure
    lemma SizesTell(ret: XzRet)
      requires DataCounted()
      requires var r := unpacker.u.unpack(h.filters, unpacker.eaten);
        ret == XzStreamEnd ==> r.status == Over && unpacker.made == |r.out|
      ensures Exceeds(blockCompressed, headerCompressed) || Exceeds(blockUncompressed, headerUncompressed) ==> DataAt() == Failed
      ensures ret == XzStreamEnd ==>
        Differs(blockCompressed, headerCompressed) || Differs(blockUncompressed, headerUncompressed) ==> DataAt() == Failed
    {
    }

    // the sizes of the Block are added to the sums
    method BlockDone()
      requires Known() && NoIndex() && DataState()
      requires var r := unpacker.u.unpack(h.filters, unpacker.eaten);
        && r.status == Over && unpacker.made == |r.out|
        && !Differs(blockCompressed, headerCompressed) && !Differs(blockUncompressed, headerUncompressed)
      modifies `blockHash, `blockCount, `sum
      ensures PaddingState() && sum.out == old(sum.out) + Unpacked()
      ensures old(DataAt()) == Expect(Zeros(Pad4(blockCompressed)) + CheckLeft(), AtBlock(sum))
    {
      ghost var out := unpacker.u.unpack(h.filters, unpacker.eaten).out;
      HashBlock();
      blockCount := blockCount + 1;
      assert out[..unpacker.made] == out;
      sum := AddBlock(sum, headerSize, blockCompressed, out);
    }

    method HashBlock()
      modifies `blockHash
      requires checkType <= 1
      ensures blockHash == AddRecord(old(blockHash), Unpadded(checkType, headerSize, blockCompressed), blockUncompressed)
    {
      ghost var hash := blockHash;
      blockHash := blockHash.(unpadded := (blockHash.unpadded + (headerSize + blockCompressed)) % TWO64);
      if checkType == 1 {
        blockHash := blockHash.(unpadded := (blockHash.unpadded + 4) % TWO64);
      }
      ModAdd(hash.unpadded + (headerSize + blockCompressed), 4, TWO64);
      blockHash := blockHash.(uncompressed := (blockHash.uncompressed + blockUncompressed) % TWO64);
      blockHash := blockHash.(crc := Crc(HashBytes(blockHash), blockHash.crc));
    }

    // where the machine is before a part of the Block Padding and the Check
    ghost function PaddingAt(): State
      reads this`checkType, this`crc32, this`pos, this`blockCompressed, this`sum
    {
      Expect(Zeros(Pad4(blockCompressed)) + CheckLeft(), AtBlock(sum))
    }

    ghost function CheckAt(): State
      reads this`checkType, this`crc32, this`pos, this`sum
    {
      Expect(CheckLeft(), AtBlock(sum))
    }

    /** SEQ_BLOCK_PADDING */
    method OnPadding(b: XzBuf) returns (v: Verdict)
      requires PaddingState() && b.Valid()
      modifies b`inPos, `blockCompressed
      ensures b.Valid() && old(b.inPos) <= b.inPos && b.input[..] == old(b.input[..])
      ensures var s := Feed(unpacker.u, old(PaddingAt()), b.input[old(b.inPos)..b.inPos]);
        match v
        case Proceed => CheckState() && s == CheckAt()
        case Stop(ret) =>
          if ret == XzOk then b.UsedUp() && PaddingState() && s == PaddingAt() else IsError(ret) && s == Failed
    {
      ghost var in0, n0 := b.inPos, blockCompressed;
      v := SkipPadding(b);
      ghost var k := b.inPos - in0;
      if v.Proceed? || v == Stop(XzOk) {
        PaddingFed(Pad4(n0), k, CheckLeft(), AtBlock(sum));
      } else {
        PaddingWrong(Pad4(n0), k - 1, CheckLeft(), AtBlock(sum), b.input[b.inPos - 1]);
      }
    }

    method SkipPadding(b: XzBuf) returns (v: Verdict)
      requires b.Valid()
      modifies b`inPos, `blockCompressed
      ensures b.Valid() && old(b.inPos) <= b.inPos && b.input[..] == old(b.input[..])
      ensures var k := b.inPos - old(b.inPos);
        match v
        case Proceed => b.input[old(b.inPos)..b.inPos] == Zeros(k) && k == old(Pad4(blockCompressed)) && blockCompressed % 4 == 0
        case Stop(ret) =>
          if ret == XzOk then b.UsedUp() && b.input[old(b.inPos)..b.inPos] == Zeros(k) && k + Pad4(blockCompressed) == old(Pad4(blockCompressed))
          else IsError(ret) && 0 < k <= old(Pad4(blockCompressed)) && b.input[b.inPos - 1] != 0
               && b.input[old(b.inPos)..b.inPos] == Zeros(k - 1) + [b.input[b.inPos - 1]]
    {
      ghost var in0, n0, k := b.inPos, blockCompressed, 0;
      while blockCompressed % 4 != 0
        invariant b.Valid() && b.inPos == in0 + k && blockCompressed == n0 + k && k + Pad4(blockCompressed) == Pad4(n0)
        invariant b.input[in0..b.inPos] == Zeros(k)
        decreases Pad4(n0) - k
      {
        if b.inPos == b.inSize {
          return Stop(XzOk);
        }
        PadOne(blockCompressed);
        var good := ZeroByte(b, in0, k);
        if !good {
          return Stop(XzDataError);
        }
        blockCompressed, k := blockCompressed + 1, k + 1;
      }
      v := Proceed;
    }

    // one byte of padding, behind `k` others
    method ZeroByte(b: XzBuf, ghost in0: nat, ghost k: nat) returns (good: bool)
      requires b.Valid() && b.inPos < b.inSize && b.inPos == in0 + k && b.input[in0..b.inPos] == Zeros(k)
      modifies b`inPos
      ensures b.inPos == old(b.inPos) + 1 && good == (b.input[b.inPos - 1] == 0)
      ensures b.input[in0..b.inPos] == if good then Zeros(k + 1) else Zeros(k) + [b.input[b.inPos - 1]]
    {
      assert b.input[in0..b.inPos + 1] == b.input[in0..b.inPos] + [b.input[b.inPos]];
      OneZero(k);
      b.inPos := b.inPos + 1;
      good := b.input[b.inPos - 1] == 0;
    }

    lemma OneZero(k: nat)
      ensures Zeros(k + 1) == Zeros(k) + [0]
    {
      ZerosJoin(k, 1);
      assert Zeros(1) == [0] + Zeros(0) == [0];
    }

    lemma PadOne(n: nat)
      ensures n % 4 != 0 ==> Pad4(n) == Pad4(n + 1) + 1
    {
    }

    lemma PaddingFed(n: nat, k: nat, rest: seq<byte>, next: State)
      requires k <= n
      ensures Feed(unpacker.u, Expect(Zeros(n) + rest, next), Zeros(k)) == Expect(Zeros(n - k) + rest, next)
      ensures Zeros(0) + rest == rest
    {
      ZerosJoin(k, n - k);
      assert Zeros(n)[k..] == Zeros(n - k);
      ExpectJoined(unpacker.u, Zeros(n), rest, next, Zeros(k));
    }

    lemma PaddingWrong(n: nat, k: nat, rest: seq<byte>, next: State, b: byte)
      requires k < n && b != 0
      ensures Feed(unpacker.u, Expect(Zeros(n) + rest, next), Zeros(k) + [b]) == Failed
    {
      ZerosJoin(k, n - k);
      assert Zeros(n - k)[0] == 0;
      var w := Zeros(n) + rest;
      assert w[..k] == Zeros(k) && w[k] == 0;
      ExpectWrong(unpacker.u, w, next, Zeros(k) + [b]);
    }

    /** SEQ_BLOCK_CHECK */
    method OnCheck(b: XzBuf) returns (v: Verdict)
      requires CheckState() && b.Valid()
      modifies b`inPos, `pos, `crc32
      ensures b.Valid() && old(b.inPos) <= b.inPos && b.input[..] == old(b.input[..])
      ensures var s := Feed(unpacker.u, old(CheckAt()), b.input[old(b.inPos)..b.inPos]);
        match v
        case Proceed => BlockState() && s == AtBlock(sum)
        case Stop(ret) =>
          if ret == XzOk then b.UsedUp() && CheckState() && s == CheckAt() else IsError(ret) && s == Failed
    {
      ghost var c, p, in0 := crc32, pos, b.inPos;
      if checkType == 1 {
        var ret := Crc32Validate(b);
        CrcFed(c, p / 8, [], AtBlock(sum), b.input[in0..b.inPos]);
        if ret != XzStreamEnd {
          return Stop(ret);
        }
      } else {
        assert b.input[in0..b.inPos] == [];
        FeedNothing(unpacker.u, AtBlock(sum));
      }
      v := Proceed;
    }

    // the bytes of a CRC32, all or some of them, or a wrong one
    lemma CrcFed(c: Word, k: nat, more: seq<byte>, next: State, t: seq<byte>)
      requires k <= 4
      ensures var w := Le(c, 4)[k..];
        && w == Later(Le(c, 4), k) && w + [] == w && Later(Le(c, 4), k + |t|) + [] == Later(Le(c, 4), k + |t|)
        && (t <= w ==> Feed(unpacker.u, Expect(w + more, next), t) == Expect(Later(Le(c, 4), k + |t|) + more, next))
        && (t == w ==> Feed(unpacker.u, Expect(w + more, next), t) == Expect(more, next))
        && (Mismatch(w, t) ==> Feed(unpacker.u, Expect(w + more, next), t) == Failed)
    {
      var w := Le(c, 4)[k..];
      if t <= w {
        ExpectJoined(unpacker.u, w, more, next, t);
        LaterTwice(Le(c, 4), k, |t|);
        assert t == w ==> w[|t|..] + more == more;
      }
      if Mismatch(w, t) {
        assert (w + more)[..|t| - 1] == w[..|t| - 1];
        ExpectWrong(unpacker.u, w + more, next, t);
      }
    }

    /** SEQ_INDEX_CRC32 */
    method OnIndexCrc(b: XzBuf) returns (v: Verdict)
      requires IndexCrcState() && b.Valid() && temp.Length == 1024
      modifies b`inPos, `pos, `crc32, `tempSize
      ensures b.Valid() && old(b.inPos) <= b.inPos && b.input[..] == old(b.input[..])
      ensures var s := Feed(unpacker.u, old(IndexCrcAt()), b.input[old(b.inPos)..b.inPos]);
        match v
        case Proceed => FooterState() && s == FooterAt()
        case Stop(ret) =>
          if ret == XzOk then b.UsedUp() && IndexCrcState() && s == IndexCrcAt() else IsError(ret) && s == Failed
    {
      ghost var c, p, in0 := crc32, pos, b.inPos;
      var ret := Crc32Validate(b);
      ghost var t := b.input[in0..b.inPos];
      CrcFed(c, p / 8, StreamFooter(sum.check, |raw|), Finished(sum), t);
      NothingAfterFailure(unpacker.u, t);
      if ret != XzStreamEnd {
        return Stop(ret);
      }
      tempSize := 12;
      FeedNothing(unpacker.u, Expect(StreamFooter(sum.check, |raw|), Finished(sum)));
      v := Proceed;
    }

    /** SEQ_STREAM_FOOTER */
    method OnFooter(b: XzBuf) returns (v: Verdict)
      requires Wired() && FooterState() && b.Valid() && b.input != temp
      modifies b`inPos, `tempPos, temp
      ensures b.Valid() && old(b.inPos) <= b.inPos && b.input[..] == old(b.input[..])
      ensures var s := Feed(unpacker.u, old(FooterAt()), b.input[old(b.inPos)..b.inPos]);
        match v
        case Proceed => false
        case Stop(ret) =>
          if ret == XzOk then b.UsedUp() && FooterState() && s == FooterAt()
          else if ret == XzStreamEnd then s == Finished(sum)
          else IsError(ret) && s == Failed
    {
      ghost var got, in0 := Got(), b.inPos;
      var done := FillTemp(b);
      FooterFed(got, b.input[in0..b.inPos]);
      if !done {
        return Stop(XzOk);
      }
      var ret := DecStreamFooter();
      v := Stop(ret);
    }

    lemma FooterFed(got: seq<byte>, t: seq<byte>)
      requires Known() && IndexKnown() && |got + t| <= 12
      ensures
        var want := Expect(StreamFooter(sum.check, |raw|), Finished(sum));
        && Feed(unpacker.u, Feed(unpacker.u, want, got), t) == Feed(unpacker.u, want, got + t)
        && (|got + t| == 12 ==>
             Feed(unpacker.u, want, got + t) == if got + t == StreamFooter(sum.check, |raw|) then Finished(sum) else Failed)
      ensures Feed(unpacker.u, Failed, t) == Failed
    {
      var f := StreamFooter(sum.check, |raw|);
      FeedSlices(unpacker.u, Expect(f, Finished(sum)), got, t);
      NothingAfterFailure(unpacker.u, t);
      if got + t == f {
        ExpectFed(unpacker.u, f, Finished(sum));
      } else if |got + t| == 12 {
        ExpectOther(unpacker.u, f, Finished(sum), got + t);
      }
    }

    ghost function IndexAt(): State
      reads this`sum, this`field, this`part, this`indexCount, this`base, this`raw
    {
      InIndex(sum, field, part, indexCount, base, raw)
    }

    // what of the Index is not counted yet was read in this call
    ghost predicate Held(b: XzBuf)
      reads this`inStart, this`raw, this`summed, b, b.input
    {
      b.Valid() && inStart <= b.inPos && raw == summed + b.input[inStart..b.inPos]
    }

    /** index_update */
    method IndexUpdate(b: XzBuf)
      requires Counted() && Held(b) && crcTable.Valid()
      modifies `indexSize, `crc32, `summed
      ensures Counted() && summed == raw
    {
      var inUsed := b.inPos - inStart;
      indexSize := indexSize + inUsed;
      assert b.input[inStart..inStart + inUsed] == b.input[inStart..b.inPos];
      crc32 := crcTable.Sum(b.input, inStart, inUsed, crc32);
      CrcSlices(summed, b.input[inStart..b.inPos], 0);
      summed := raw;
    }

    // a field of the Index, as far as it is there
    method IndexVli(b: XzBuf) returns (ret: XzRet)
      requires VliState() && Counted() && Held(b)
      modifies b`inPos, `pos, `vli, `part, `raw
      ensures b.Valid() && old(b.inPos) <= b.inPos && b.input[..] == old(b.input[..])
      ensures Counted() && Held(b)
      ensures var s := Feed(unpacker.u, old(IndexAt()), b.input[old(b.inPos)..b.inPos]);
        && (ret == XzOk || ret == XzStreamEnd || ret == XzDataError)
        && (ret == XzOk ==> b.UsedUp() && VliState() && s == IndexAt())
        && (ret == XzStreamEnd ==>
             && pos == 0 && part == [] && b.inPos > old(b.inPos)
             && s == AfterField(sum, field, vli, indexCount, base, raw))
        && (ret == XzDataError ==> s == Failed)
    {
      ghost var in0, p0, r0 := b.inPos, part, raw;
      ret := MoreOfVli(b);
      IndexVliFed(ret, p0, r0, b.input[in0..b.inPos]);
      part := if ret == XzOk then p0 + b.input[in0..b.inPos] else [];
    }

    method MoreOfVli(b: XzBuf) returns (ret: XzRet)
      requires VliState() && Held(b)
      modifies b`inPos, `pos, `vli, `raw
      ensures Held(b) && old(b.inPos) <= b.inPos && b.input[..] == old(b.input[..])
      ensures ret == XzOk || ret == XzStreamEnd || ret == XzDataError
      ensures var t := b.input[old(b.inPos)..b.inPos]; var whole := part + t;
        && raw == old(raw) + t
        && (ret == XzOk ==>
             && b.inPos == b.inSize && Continuing(whole) && |whole| < VLI_BYTES_MAX && pos == 7 * |whole|
             && (pos > 0 ==> vli == VliValue(whole)))
        && (ret == XzStreamEnd ==> t != [] && whole == VliBytes(vli) && vli < TWO63 && pos == 0)
        && (ret == XzDataError ==> t != [] && Refused(whole))
    {
      ghost var in0, r0 := b.inPos, raw;
      ret, b.inPos := DecVli(b.input, b.inPos, b.inSize, part);
      raw := r0 + b.input[in0..b.inPos];
      HeldOn(b, in0, r0);
    }

    lemma HeldOn(b: XzBuf, in0: nat, r0: seq<byte>)
      requires b.Valid() && inStart <= in0 <= b.inPos && r0 == summed + b.input[inStart..in0]
      ensures r0 + b.input[in0..b.inPos] == summed + b.input[inStart..b.inPos]
    {
      assert b.input[inStart..in0] + b.input[in0..b.inPos] == b.input[inStart..b.inPos];
      assert summed + b.input[inStart..in0] + b.input[in0..b.inPos] == summed + (b.input[inStart..in0] + b.input[in0..b.inPos]);
    }

    lemma IndexVliFed(ret: XzRet, p0: seq<byte>, r0: seq<byte>, t: seq<byte>)
      requires ret == XzOk ==> Continuing(p0 + t) && |p0 + t| < VLI_BYTES_MAX
      requires ret == XzStreamEnd ==> t != [] && p0 + t == VliBytes(vli) && vli < TWO63
      requires ret == XzDataError ==> t != [] && Refused(p0 + t)
      ensures var s := Feed(unpacker.u, InIndex(sum, field, p0, indexCount, base, r0), t);
        && (ret == XzOk ==> s == InIndex(sum, field, p0 + t, indexCount, base, r0 + t))
        && (ret == XzStreamEnd ==> s == AfterField(sum, field, vli, indexCount, base, r0 + t))
        && (ret == XzDataError ==> s == Failed)
    {
      if ret == XzOk {
        VliPartFed(unpacker.u, sum, field, p0, indexCount, base, r0, t);
      } else if ret == XzDataError {
        VliLast(p0, t);
        VliWrongFed(unpacker.u, sum, field, p0, indexCount, base, r0, t);
      } else if ret == XzStreamEnd {
        VliFed(unpacker.u, sum, field, p0, indexCount, base, r0, t, vli);
      }
    }

    /** The switch of dec_index: the integer just read is the current field. */
    method TakeField() returns (ok: bool)
      requires blockCount == sum.count && FieldState() && Counted() && pos == 0 && part == []
      modifies `field, `base, `indexSequence, `indexCount, `indexHash
      ensures var s := old(AfterField(sum, field, vli, indexCount, base, raw));
        if !ok then s == Failed
        else if indexCount > 0 then FieldState() && s == IndexAt()
        else s == AfterIndex(sum, indexHash, raw)
    {
      match indexSequence {
      case SeqIndexCount =>
        indexCount := vli;
        if indexCount != blockCount {
          return false;
        }
        indexSequence := SeqIndexUnpadded;
        field := UnpaddedSize;
      case SeqIndexUnpadded =>
        indexHash := indexHash.(unpadded := (indexHash.unpadded + vli) % TWO64);
        indexSequence := SeqIndexUncompressed;
        field := UncompressedSize(vli);
      case SeqIndexUncompressed =>
        HashRecord();
        indexCount := indexCount - 1;
        indexSequence := SeqIndexUnpadded;
        field, base := UnpaddedSize, indexHash;
      }
      ok := true;
    }

    // the second half of a Record is added to the sums
    method HashRecord()
      requires field.UncompressedSize? && indexHash == base.(unpadded := (base.unpadded + field.unpadded) % TWO64)
      modifies `indexHash
      ensures indexHash == AddRecord(base, field.unpadded, vli)
    {
      indexHash := indexHash.(uncompressed := (indexHash.uncompressed + vli) % TWO64);
      indexHash := indexHash.(crc := Crc(HashBytes(indexHash), indexHash.crc));
    }

    /** dec_index: SEQ_INDEX */
    method OnIndex(b: XzBuf) returns (v: Verdict)
      requires blockCount == sum.count && IndexState() && Held(b) && crcTable.Valid()
      modifies b`inPos, `pos, `vli, `part, `raw, `field, `base, `indexSequence, `indexCount, `indexHash
      modifies `indexSize, `crc32, `summed
      ensures b.Valid() && old(b.inPos) <= b.inPos && b.input[..] == old(b.input[..])
      ensures var s := Feed(unpacker.u, old(IndexAt()), b.input[old(b.inPos)..b.inPos]);
        match v
        case Proceed => IndexPaddingState() && Held(b) && s == AfterIndex(sum, indexHash, raw)
        case Stop(ret) =>
          if ret == XzOk then b.UsedUp() && IndexState() && raw == summed && s == IndexAt() else IsError(ret) && s == Failed
    {
      ghost var in0, s0 := b.inPos, IndexAt();
      assert b.input[in0..b.inPos] == [];
      FeedNothing(unpacker.u, s0);
      while true
        invariant b.Valid() && in0 <= b.inPos && b.input[..] == old(b.input[..])
        invariant IndexState() && Held(b) && Feed(unpacker.u, s0, b.input[in0..b.inPos]) == IndexAt()
        decreases b.inSize - b.inPos
      {
        ghost var in1 := b.inPos;
        v := OneField(b);
        FedOn(b, s0, in0, in1);
        if v.Stop? || indexCount == 0 {
          return;
        }
      }
    }

    // one round of the loop of dec_index
    method OneField(b: XzBuf) returns (v: Verdict)
      requires blockCount == sum.count && IndexState() && Held(b) && crcTable.Valid()
      modifies b`inPos, `pos, `vli, `part, `raw, `field, `base, `indexSequence, `indexCount, `indexHash
      modifies `indexSize, `crc32, `summed
      ensures b.Valid() && old(b.inPos) <= b.inPos && b.input[..] == old(b.input[..])
      ensures var s := Feed(unpacker.u, old(IndexAt()), b.input[old(b.inPos)..b.inPos]);
        match v
        case Proceed =>
          && Held(b) && b.inPos > old(b.inPos)
          && if indexCount > 0 then IndexState() && s == IndexAt() else IndexPaddingState() && s == AfterIndex(sum, indexHash, raw)
        case Stop(ret) =>
          if ret == XzOk then b.UsedUp() && IndexState() && raw == summed && s == IndexAt() else IsError(ret) && s == Failed
    {
      var ret := IndexVli(b);
      if ret != XzStreamEnd {
        PauseInField(b);
        return Stop(ret);
      }
      var ok := EndField();
      v := if ok then Proceed else Stop(XzDataError);
    }

    // index_update, when there is no more input or it is wrong
    method PauseInField(b: XzBuf)
      requires Counted() && Held(b) && FieldState() && crcTable.Valid()
      modifies `indexSize, `crc32, `summed
      ensures Counted() && summed == raw && FieldState()
      ensures VliState() == old(VliState()) && IndexAt() == old(IndexAt())
    {
      IndexUpdate(b);
    }

    method EndField() returns (ok: bool)
      requires blockCount == sum.count && FieldState() && Counted() && pos == 0 && part == []
      modifies `field, `base, `indexSequence, `indexCount, `indexHash
      ensures var s := old(AfterField(sum, field, vli, indexCount, base, raw));
        if !ok then s == Failed
        else if indexCount > 0 then IndexState() && s == IndexAt()
        else IndexPaddingState() && s == AfterIndex(sum, indexHash, raw)
    {
      ok := TakeField();
    }

    lemma FedOn(b: XzBuf, s: State, in0: nat, in1: nat)
      requires b.Valid() && in0 <= in1 <= b.inPos
      ensures Feed(unpacker.u, s, b.input[in0..b.inPos]) == Feed(unpacker.u, Feed(unpacker.u, s, b.input[in0..in1]), b.input[in1..b.inPos])
    {
      assert b.input[in0..b.inPos] == b.input[in0..in1] + b.input[in1..b.inPos];
      FeedSlices(unpacker.u, s, b.input[in0..in1], b.input[in1..b.inPos]);
    }

    /** SEQ_INDEX_PADDING */
    method OnIndexPadding(b: XzBuf) returns (v: Verdict)
      requires Known() && IndexPaddingState() && Held(b) && crcTable.Valid()
      modifies b`inPos, `raw, `indexSize, `crc32, `summed
      ensures b.Valid() && old(b.inPos) <= b.inPos && b.input[..] == old(b.input[..])
      ensures var s := Feed(unpacker.u, old(AfterIndex(sum, indexHash, raw)), b.input[old(b.inPos)..b.inPos]);
        match v
        case Proceed => IndexCrcState() && s == IndexCrcAt()
        case Stop(ret) =>
          if ret == XzOk then b.UsedUp() && IndexPaddingState() && raw == summed && s == AfterIndex(sum, indexHash, raw)
          else IsError(ret) && s == Failed
    {
      v := SkipIndexPadding(b);
      if v.Stop? && v.ret != XzOk {
        return;
      }
      IndexUpdate(b);
      if v.Stop? {
        return;
      }
      PaddingDone(sum, indexHash, raw);
      if indexHash != blockHash {
        return Stop(XzDataError);
      }
    }

    method SkipIndexPadding(b: XzBuf) returns (v: Verdict)
      requires Held(b) && raw != [] && indexSize == |summed|
      modifies b`inPos, `raw
      ensures b.Valid() && old(b.inPos) <= b.inPos && b.input[..] == old(b.input[..])
      ensures raw != []
      ensures var s := Feed(unpacker.u, old(AfterIndex(sum, indexHash, raw)), b.input[old(b.inPos)..b.inPos]);
        match v
        case Proceed => Held(b) && |raw| % 4 == 0 && s == AfterIndex(sum, indexHash, raw)
        case Stop(ret) =>
          if ret == XzOk then b.UsedUp() && Held(b) && s == AfterIndex(sum, indexHash, raw) else IsError(ret) && s == Failed
    {
      ghost var in0, s0 := b.inPos, AfterIndex(sum, indexHash, raw);
      assert b.input[in0..b.inPos] == [];
      FeedNothing(unpacker.u, s0);
      while (indexSize + (b.inPos - inStart)) % 4 != 0
        invariant Held(b) && raw != [] && in0 <= b.inPos
        invariant Feed(unpacker.u, s0, b.input[in0..b.inPos]) == AfterIndex(sum, indexHash, raw)
        decreases b.inSize - b.inPos
      {
        if b.inPos == b.inSize {
          return Stop(XzOk);
        }
        ghost var in1 := b.inPos;
        var good := IndexZero(b);
        FedOn(b, s0, in0, in1);
        if !good {
          return Stop(XzDataError);
        }
      }
      v := Proceed;
    }

    // one byte of Index Padding
    method IndexZero(b: XzBuf) returns (good: bool)
      requires Held(b) && raw != [] && |raw| % 4 != 0 && b.inPos < b.inSize
      modifies b`inPos, `raw
      ensures b.Valid() && b.inPos == old(b.inPos) + 1 && raw != []
      ensures var s := Feed(unpacker.u, old(AfterIndex(sum, indexHash, raw)), b.input[old(b.inPos)..b.inPos]);
        if good then Held(b) && s == AfterIndex(sum, indexHash, raw) else s == Failed
    {
      ghost var in1, r1, x := b.inPos, raw, b.input[b.inPos];
      PaddingStep(unpacker.u, sum, indexHash, raw, x);
      FeedOne(unpacker.u, AfterIndex(sum, indexHash, raw), x);
      b.inPos := b.inPos + 1;
      assert b.input[in1..b.inPos] == [x];
      good := b.input[b.inPos - 1] == 0;
      if good {
        raw := raw + [x];
        HeldOn(b, in1, r1);
      }
    }

    /** SEQ_BLOCK_HEADER */
    method OnBlockHeader(b: XzBuf) returns (v: Verdict)
      requires Wired() && b.Valid() && b.input != temp && Known() && pos == 0 && crc32 == 0 && NoIndex()
      requires HeaderAhead(b)
      modifies `tempPos, `tempSize, temp, b`inPos, `sequence, `pos, `vli
      modifies `headerCompressed, `headerUncompressed, `blockCompressed, `blockUncompressed
      modifies unpacker`filters, unpacker`eaten, unpacker`made, `h
      ensures b.Valid() && old(b.inPos) <= b.inPos && b.input[..] == old(b.input[..])
      ensures var s := Feed(unpacker.u, old(AtHeader()), b.input[old(b.inPos)..b.inPos]);
        match v
        case Proceed =>
          Known() && NoIndex() && DataState() && unpacker.made == 0 && b.inPos > old(b.inPos)
          && sequence.SeqBlockUncompress? && s == DataAt()
        case Stop(ret) =>
          if ret == XzOk then b.UsedUp() && HeaderState() && sequence == old(sequence) && s == InBlockHeader(sum, Got())
          else IsError(ret) && s == Failed
    {
      v := HeaderToData(b);
    }

    // the next bytes are those of a Block Header, of which some may have been read
    ghost predicate HeaderAhead(b: XzBuf)
      reads this`tempPos, this`tempSize, this`headerSize, temp, b, b.input
    {
      && tempPos < tempSize == headerSize <= 1024 <= temp.Length
      && if tempPos > 0 then temp[0] != 0 && HeaderSize(temp[0]) == tempSize
         else b.inPos < b.inSize <= b.input.Length && b.input[b.inPos] != 0 && HeaderSize(b.input[b.inPos]) == tempSize
    }

    method HeaderToData(b: XzBuf) returns (v: Verdict)
      requires Wired() && b.Valid() && b.input != temp && pos == 0 && crc32 == 0 && HeaderAhead(b)
      modifies `tempPos, `tempSize, temp, b`inPos, `sequence, `pos, `vli
      modifies `headerCompressed, `headerUncompressed, `blockCompressed, `blockUncompressed
      modifies unpacker`filters, unpacker`eaten, unpacker`made, `h
      ensures b.Valid() && old(b.inPos) <= b.inPos && b.input[..] == old(b.input[..])
      ensures var s := Feed(unpacker.u, old(AtHeader()), b.input[old(b.inPos)..b.inPos]);
        match v
        case Proceed =>
          && DataState() && unpacker.made == 0 && b.inPos > old(b.inPos)
          && sequence.SeqBlockUncompress? && s == DataAt()
        case Stop(ret) =>
          if ret == XzOk then
            && b.UsedUp() && pos == 0 && tempPos > 0 && HeaderAhead(b) && sequence == old(sequence) && s == InBlockHeader(sum, Got())
          else IsError(ret) && s == Failed
    {
      ghost var in0 := b.inPos;
      ghost var s0 := AtHeader();
      var done := CollectHeader(b);
      if !done {
        return Stop(XzOk);
      }
      var ret := ReadHeader(Feed(unpacker.u, s0, b.input[in0..b.inPos]));
      if ret != XzOk {
        return Stop(ret);
      }
      sequence := SeqBlockUncompress;
      v := Proceed;
    }

    // how far it is to the next byte of input
    ghost function Rank(): nat
      reads this`sequence
    {
      match sequence
      case SeqBlockUncompress => 4
      case SeqBlockPadding => 3
      case SeqBlockCheck => 2
      case SeqIndex => 4
      case SeqIndexPadding => 3
      case SeqIndexCrc32 => 2
      case _ => 1
    }

    /** One or more steps of dec_main that end with the verdict `v`: the decoder is where the machine is after
        the same bytes. If there is an error, the machine fails within the bytes that were offered. */
    twostate predicate Stepped(b: XzBuf, v: Verdict, sent: seq<byte>)
      reads this, temp, unpacker, b, b.input, b.output
    {
      && old(b.Valid()) && b.Valid() && old(b.inPos) <= b.inPos && old(b.outPos) <= b.outPos && b.input[..] == old(b.input[..])
      && var s := Feed(unpacker.u, old(Abs()), b.input[old(b.inPos)..b.inPos]);
         match v
         case Proceed => Ready(b) && s == Abs() && Sent(b, sent)
         case Stop(ret) =>
           if ret == XzOk then b.UsedUp() && StateOk() && Between() && s == Abs() && Sent(b, sent)
           else if ret == XzStreamEnd then s == Finished(sum) && sequence.SeqStreamFooter? && Sent(b, sent)
           else IsError(ret) && KeptAround(b) && Feed(unpacker.u, old(Abs()), b.input[old(b.inPos)..b.inSize]) == Failed
    }

    twostate predicate Sent(b: XzBuf, sent: seq<byte>)
      reads this, unpacker, b, b.output
    {
      && b.outPos == old(b.outPos) + |sent| <= b.output.Length
      && Written(old(b.output[..]), old(b.outPos), sent, b.output[..], b.outSize) && Produced() == old(Produced()) + sent
    }

    // a step that writes nothing
    twostate lemma NothingSent(b: XzBuf)
      requires old(b.Valid()) && b.outPos == old(b.outPos) && b.output[..] == old(b.output[..])
      ensures Produced() == old(Produced()) ==> Sent(b, [])
      ensures KeptAround(b)
    {
    }

    method StepStreamHeader(b: XzBuf) returns (v: Verdict, ghost sent: seq<byte>)
      requires Wired() && Ready(b) && sequence.SeqStreamHeader?
      modifies this, temp, unpacker, b`inPos, b`outPos, b.output
      ensures Stepped(b, v, sent) && (v.Proceed? ==> b.inPos > old(b.inPos) || Rank() < old(Rank()))
    {
      StateIs();
      sent := [];
      ghost var s0, in0 := Abs(), b.inPos;
      v := OnStreamHeader(b);
      StateIs();
      OfferedFails(b, s0, in0);
      NothingSent(b);
    }

    method StepBlockStart(b: XzBuf) returns (v: Verdict, ghost sent: seq<byte>)
      requires Wired() && Ready(b) && sequence.SeqBlockStart?
      modifies this, temp, unpacker, b`inPos, b`outPos, b.output
      ensures Stepped(b, v, sent) && (v.Proceed? ==> b.inPos > old(b.inPos) || Rank() < old(Rank()))
    {
      StateIs();
      sent := [];
      ghost var s0, in0 := Abs(), b.inPos;
      v := OnBlockStart(b);
      StateIs();
      OfferedFails(b, s0, in0);
      NothingSent(b);
    }

    /** SEQ_BLOCK_START */
    method OnBlockStart(b: XzBuf) returns (v: Verdict)
      requires Wired() && InCall(b) && BlockState() && sequence.SeqBlockStart?
      modifies b`inPos, `sequence, `inStart, `part, `field, `base, `raw, `summed
      modifies `headerSize, `tempPos, `tempSize, temp, `pos, `vli
      modifies `headerCompressed, `headerUncompressed, `blockCompressed, `blockUncompressed
      modifies unpacker`filters, unpacker`eaten, unpacker`made, `h
      ensures b.Valid() && old(b.inPos) <= b.inPos && b.input[..] == old(b.input[..])
      ensures var s := Feed(unpacker.u, AtBlock(sum), b.input[old(b.inPos)..b.inPos]);
        match v
        case Proceed =>
          && b.inPos > old(b.inPos)
          && if sequence.SeqIndex? then InCall(b) && Known() && IndexState() && s == IndexAt()
             else sequence.SeqBlockUncompress? && Known() && NoIndex() && DataState() && unpacker.made == 0 && s == DataAt()
        case Stop(ret) =>
          if ret != XzOk then IsError(ret) && s == Failed
          else if sequence.SeqBlockStart? then b.UsedUp() && BlockState() && s == AtBlock(sum)
          else b.UsedUp() && sequence.SeqBlockHeader? && HeaderState() && s == InBlockHeader(sum, Got())
    {
      if b.inPos == b.inSize {
        assert b.input[b.inPos..b.inPos] == [];
        FeedNothing(unpacker.u, AtBlock(sum));
        return Stop(XzOk);
      }
      if b.input[b.inPos] == 0 {
        EnterIndex(b);
        return Proceed;
      }
      v := StartBlock(b);
    }

    method EnterIndex(b: XzBuf)
      requires InCall(b) && BlockState() && b.inPos < b.inSize && b.input[b.inPos] == 0
      modifies b`inPos, `sequence, `inStart, `part, `field, `base, `raw, `summed
      ensures b.inPos == old(b.inPos) + 1 && sequence.SeqIndex? && InCall(b) && Known() && IndexState()
      ensures Feed(unpacker.u, AtBlock(sum), b.input[old(b.inPos)..b.inPos]) == IndexAt()
    {
      sequence := SeqIndex;
      IndexByte(unpacker.u, sum);
      StartIndex(b);
      assert b.input[b.inPos - 1..b.inPos] == [0];
    }

    lemma IndexByte(u: Setup, s: Sum)
      ensures Feed(u, AtBlock(s), [0]) == AtIndex(s)
    {
      FeedOne(u, AtBlock(s), 0);
    }

    /** SEQ_BLOCK_START, when the next byte says that a Block follows. */
    method StartBlock(b: XzBuf) returns (v: Verdict)
      requires Wired() && b.Valid() && b.input != temp && BlockState() && b.inPos < b.inSize && b.input[b.inPos] != 0
      modifies `headerSize
      modifies `tempPos, `tempSize, temp, b`inPos, `sequence, `pos, `vli
      modifies `headerCompressed, `headerUncompressed, `blockCompressed, `blockUncompressed, unpacker`filters, unpacker`eaten, unpacker`made, `h
      ensures b.Valid() && old(b.inPos) <= b.inPos && b.input[..] == old(b.input[..])
      ensures var s := Feed(unpacker.u, AtBlock(sum), b.input[old(b.inPos)..b.inPos]);
        match v
        case Proceed =>
          Known() && NoIndex() && DataState() && unpacker.made == 0 && b.inPos > old(b.inPos)
          && sequence.SeqBlockUncompress? && s == DataAt()
        case Stop(ret) =>
          if ret == XzOk then b.UsedUp() && HeaderState() && sequence.SeqBlockHeader? && s == InBlockHeader(sum, Got())
          else IsError(ret) && s == Failed
    {
      headerSize := HeaderSize(b.input[b.inPos]);
      tempSize := headerSize;
      tempPos := 0;
      sequence := SeqBlockHeader;
      v := OnBlockHeader(b);
    }

    method StepBlockHeader(b: XzBuf) returns (v: Verdict, ghost sent: seq<byte>)
      requires Wired() && Ready(b) && sequence.SeqBlockHeader?
      modifies this, temp, unpacker, b`inPos, b`outPos, b.output
      ensures Stepped(b, v, sent) && (v.Proceed? ==> b.inPos > old(b.inPos) || Rank() < old(Rank()))
    {
      StateIs();
      sent := [];
      ghost var s0, in0 := Abs(), b.inPos;
      v := OnBlockHeader(b);
      StateIs();
      OfferedFails(b, s0, in0);
      NothingSent(b);
    }

    method StepUncompress(b: XzBuf) returns (v: Verdict, ghost sent: seq<byte>)
      requires Wired() && Ready(b) && sequence.SeqBlockUncompress?
      modifies this, temp, unpacker, b`inPos, b`outPos, b.output
      ensures Stepped(b, v, sent) && (v.Proceed? ==> b.inPos > old(b.inPos) || Rank() < old(Rank()))
    {
      StateIs();
      v, sent := DataToPadding(b);
    }

    // SEQ_BLOCK_UNCOMPRESS, and what follows it
    method DataToPadding(b: XzBuf) returns (v: Verdict, ghost sent: seq<byte>)
      requires Wired() && sequence.SeqBlockUncompress? && Known() && NoIndex() && DataState() && b.Valid()
      modifies unpacker`eaten, unpacker`made, b`inPos, b`outPos, b.output, `inStart, `outStart, `blockCompressed, `blockUncompressed, `crc32
      modifies `blockHash, `blockCount, `sum, `sequence
      ensures b.Valid() && old(b.inPos) <= b.inPos && old(b.outPos) <= b.outPos && b.input[..] == old(b.input[..])
      ensures var s := Feed(unpacker.u, old(DataAt()), b.input[old(b.inPos)..b.inPos]);
        match v
        case Proceed => sequence.SeqBlockPadding? && StateOk() && s == Abs() && Sent(b, sent)
        case Stop(ret) =>
          && sequence.SeqBlockUncompress?
          && if ret == XzOk then b.UsedUp() && StateOk() && s == Abs() && Sent(b, sent)
             else IsError(ret) && KeptAround(b) && Feed(unpacker.u, old(DataAt()), old(Offered(b))) == Failed
    {
      var ret;
      ghost var done, before := sum.out, Unpacked();
      ret, sent := DecBlock(b);
      assert done + before + sent == done + (before + sent);
      if ret == XzStreamEnd {
        sequence := SeqBlockPadding;
        v := Proceed;
      } else {
        v := Stop(ret);
      }
      StateIs();
    }

    method StepPadding(b: XzBuf) returns (v: Verdict, ghost sent: seq<byte>)
      requires Wired() && Ready(b) && sequence.SeqBlockPadding?
      modifies this, temp, unpacker, b`inPos, b`outPos, b.output
      ensures Stepped(b, v, sent) && (v.Proceed? ==> b.inPos > old(b.inPos) || Rank() < old(Rank()))
    {
      StateIs();
      sent := [];
      ghost var s0, in0 := Abs(), b.inPos;
      v := PaddingToCheck(b);
      OfferedFails(b, s0, in0);
      NothingSent(b);
    }

    // SEQ_BLOCK_PADDING, and what follows it
    method PaddingToCheck(b: XzBuf) returns (v: Verdict)
      requires sequence.SeqBlockPadding? && PaddingState() && b.Valid()
      modifies b`inPos, `blockCompressed, `sequence
      ensures b.Valid() && old(b.inPos) <= b.inPos && b.input[..] == old(b.input[..])
      ensures var s := Feed(unpacker.u, old(PaddingAt()), b.input[old(b.inPos)..b.inPos]);
        match v
        case Proceed => sequence.SeqBlockCheck? && StateOk() && s == Abs()
        case Stop(ret) =>
          sequence.SeqBlockPadding? && if ret == XzOk then b.UsedUp() && StateOk() && s == Abs() else IsError(ret) && s == Failed
    {
      v := OnPadding(b);
      if v.Proceed? {
        sequence := SeqBlockCheck;
      }
      StateIs();
    }

    method StepCheck(b: XzBuf) returns (v: Verdict, ghost sent: seq<byte>)
      requires Wired() && Ready(b) && sequence.SeqBlockCheck?
      modifies this, temp, unpacker, b`inPos, b`outPos, b.output
      ensures Stepped(b, v, sent) && (v.Proceed? ==> b.inPos > old(b.inPos) || Rank() < old(Rank()))
    {
      StateIs();
      sent := [];
      ghost var s0, in0 := Abs(), b.inPos;
      v := CheckToStart(b);
      OfferedFails(b, s0, in0);
      NothingSent(b);
    }

    // SEQ_BLOCK_CHECK, and what follows it
    method CheckToStart(b: XzBuf) returns (v: Verdict)
      requires sequence.SeqBlockCheck? && CheckState() && b.Valid()
      modifies b`inPos, `pos, `crc32, `sequence
      ensures b.Valid() && old(b.inPos) <= b.inPos && b.input[..] == old(b.input[..])
      ensures var s := Feed(unpacker.u, old(CheckAt()), b.input[old(b.inPos)..b.inPos]);
        match v
        case Proceed => sequence.SeqBlockStart? && StateOk() && s == Abs()
        case Stop(ret) =>
          sequence.SeqBlockCheck? && if ret == XzOk then b.UsedUp() && StateOk() && s == Abs() else IsError(ret) && s == Failed
    {
      v := OnCheck(b);
      if v.Proceed? {
        sequence := SeqBlockStart;
      }
      StateIs();
    }

    lemma IndexIs()
      ensures sequence.SeqIndex? ==> StateOk() == (Known() && IndexState()) && Abs() == IndexAt()
      ensures sequence.SeqIndexPadding? ==> StateOk() == (Known() && IndexPaddingState()) && Abs() == AfterIndex(sum, indexHash, raw)
    {
      StateIs();
    }

    method StepIndex(b: XzBuf) returns (v: Verdict, ghost sent: seq<byte>)
      requires Wired() && Ready(b) && sequence.SeqIndex?
      modifies this, temp, unpacker, b`inPos, b`outPos, b.output
      ensures Stepped(b, v, sent) && (v.Proceed? ==> b.inPos > old(b.inPos) || Rank() < old(Rank()))
    {
      IndexIs();
      sent := [];
      ghost var s0, in0 := Abs(), b.inPos;
      v := IndexToPadding(b);
      OfferedFails(b, s0, in0);
      NothingSent(b);
    }

    // SEQ_INDEX, and what follows it
    method IndexToPadding(b: XzBuf) returns (v: Verdict)
      requires sequence.SeqIndex? && Known() && IndexState() && Held(b) && crcTable.Valid()
      modifies b`inPos, `pos, `vli, `part, `raw, `field, `base, `indexSequence, `indexCount, `indexHash
      modifies `indexSize, `crc32, `summed, `sequence
      ensures b.Valid() && old(b.inPos) <= b.inPos && b.input[..] == old(b.input[..])
      ensures var s := Feed(unpacker.u, old(IndexAt()), b.input[old(b.inPos)..b.inPos]);
        match v
        case Proceed => sequence.SeqIndexPadding? && StateOk() && Held(b) && s == Abs()
        case Stop(ret) =>
          sequence.SeqIndex? && if ret == XzOk then b.UsedUp() && StateOk() && raw == summed && s == Abs() else IsError(ret) && s == Failed
    {
      v := OnIndex(b);
      if v.Proceed? {
        EnterIndexPadding();
      } else {
        IndexIs();
      }
    }

    method EnterIndexPadding()
      requires Known() && IndexPaddingState()
      modifies `sequence
      ensures sequence.SeqIndexPadding? && StateOk() && Abs() == AfterIndex(sum, indexHash, raw)
    {
      sequence := SeqIndexPadding;
      IndexIs();
    }

    method StepIndexPadding(b: XzBuf) returns (v: Verdict, ghost sent: seq<byte>)
      requires Wired() && Ready(b) && sequence.SeqIndexPadding?
      modifies this, temp, unpacker, b`inPos, b`outPos, b.output
      ensures Stepped(b, v, sent) && (v.Proceed? ==> b.inPos > old(b.inPos) || Rank() < old(Rank()))
    {
      IndexIs();
      sent := [];
      ghost var s0, in0 := Abs(), b.inPos;
      v := PaddingToCrc(b);
      OfferedFails(b, s0, in0);
      NothingSent(b);
    }

    // SEQ_INDEX_PADDING, and what follows it
    method PaddingToCrc(b: XzBuf) returns (v: Verdict)
      requires sequence.SeqIndexPadding? && Known() && IndexPaddingState() && Held(b) && crcTable.Valid()
      modifies b`inPos, `raw, `indexSize, `crc32, `summed, `sequence
      ensures b.Valid() && old(b.inPos) <= b.inPos && b.input[..] == old(b.input[..])
      ensures var s := Feed(unpacker.u, old(AfterIndex(sum, indexHash, raw)), b.input[old(b.inPos)..b.inPos]);
        match v
        case Proceed => sequence.SeqIndexCrc32? && StateOk() && s == Abs()
        case Stop(ret) =>
          && sequence.SeqIndexPadding?
          && if ret == XzOk then b.UsedUp() && StateOk() && raw == summed && s == Abs() else IsError(ret) && s == Failed
    {
      v := OnIndexPadding(b);
      if v.Proceed? {
        sequence := SeqIndexCrc32;
      }
      StateIs();
    }

    method StepIndexCrc(b: XzBuf) returns (v: Verdict, ghost sent: seq<byte>)
      requires Wired() && Ready(b) && sequence.SeqIndexCrc32?
      modifies this, temp, unpacker, b`inPos, b`outPos, b.output
      ensures Stepped(b, v, sent) && (v.Proceed? ==> b.inPos > old(b.inPos) || Rank() < old(Rank()))
    {
      StateIs();
      sent := [];
      ghost var s0, in0 := Abs(), b.inPos;
      v := CrcToFooter(b);
      OfferedFails(b, s0, in0);
      NothingSent(b);
    }

    // SEQ_INDEX_CRC32, and what follows it
    method CrcToFooter(b: XzBuf) returns (v: Verdict)
      requires sequence.SeqIndexCrc32? && IndexCrcState() && b.Valid() && temp.Length == 1024
      modifies b`inPos, `pos, `crc32, `tempSize, `sequence
      ensures b.Valid() && old(b.inPos) <= b.inPos && b.input[..] == old(b.input[..])
      ensures var s := Feed(unpacker.u, old(IndexCrcAt()), b.input[old(b.inPos)..b.inPos]);
        match v
        case Proceed => sequence.SeqStreamFooter? && StateOk() && s == Abs()
        case Stop(ret) =>
          sequence.SeqIndexCrc32? && if ret == XzOk then b.UsedUp() && StateOk() && s == Abs() else IsError(ret) && s == Failed
    {
      v := OnIndexCrc(b);
      if v.Proceed? {
        sequence := SeqStreamFooter;
      }
      StateIs();
    }

    method StepFooter(b: XzBuf) returns (v: Verdict, ghost sent: seq<byte>)
      requires Wired() && Ready(b) && sequence.SeqStreamFooter?
      modifies this, temp, unpacker, b`inPos, b`outPos, b.output
      ensures Stepped(b, v, sent) && (v.Proceed? ==> b.inPos > old(b.inPos) || Rank() < old(Rank()))
    {
      StateIs();
      sent := [];
      ghost var s0, in0 := Abs(), b.inPos;
      v := OnFooter(b);
      StateIs();
      OfferedFails(b, s0, in0);
      NothingSent(b);
    }

    /** One round of the switch of dec_main. */
    method OneStep(b: XzBuf) returns (v: Verdict, ghost sent: seq<byte>)
      requires Wired() && Ready(b)
      modifies this, temp, unpacker, b`inPos, b`outPos, b.output
      ensures Stepped(b, v, sent) && (v.Proceed? ==> b.inPos > old(b.inPos) || Rank() < old(Rank()))
    {
      match sequence
      case SeqStreamHeader => v, sent := StepStreamHeader(b);
      case SeqBlockStart => v, sent := StepBlockStart(b);
      case SeqBlockHeader => v, sent := StepBlockHeader(b);
      case SeqBlockUncompress => v, sent := StepUncompress(b);
      case SeqBlockPadding => v, sent := StepPadding(b);
      case SeqBlockCheck => v, sent := StepCheck(b);
      case SeqIndex => v, sent := StepIndex(b);
      case SeqIndexPadding => v, sent := StepIndexPadding(b);
      case SeqIndexCrc32 => v, sent := StepIndexCrc(b);
      case SeqStreamFooter => v, sent := StepFooter(b);
    }

    /** dec_main */
    method DecMain(b: XzBuf) returns (ret: XzRet, ghost sent: seq<byte>)
      requires Wired() && StateOk() && Between() && b.Valid() && b.input != temp && b.output != temp
      modifies this, temp, unpacker, b`inPos, b`outPos, b.output
      ensures Stepped(b, Stop(ret), sent)
    {
      StartCall(b);
      assert b.input[b.inPos..b.inPos] == [];
      ghost var c := Begun(Abs(), Produced(), b.inPos, b.outPos, b.output[..]);
      FeedNothing(unpacker.u, c.state);
      sent := [];
      var v := Proceed;
      while v.Proceed?
        invariant b.Valid() && b.input[..] == old(b.input[..]) && Came(b, c, v, sent)
        decreases v.Proceed?, b.inSize - b.inPos, Rank()
      {
        v, sent := Round(b, c, sent);
      }
      ret := v.ret;
    }

    /** Since the call began: what Stepped says of a single step. */
    ghost predicate Came(b: XzBuf, c: Beginning, v: Verdict, sent: seq<byte>)
      reads this, temp, unpacker, b, b.input, b.output
    {
      && b.Valid() && c.inPos <= b.inPos && c.outPos <= b.outPos
      && if v.Stop? && IsError(v.ret) then
           && c.outPos <= b.outSize && |c.output| == b.output.Length
           && b.output[..c.outPos] == c.output[..c.outPos] && b.output[b.outSize..] == c.output[b.outSize..]
           && Feed(unpacker.u, c.state, b.input[c.inPos..b.inSize]) == Failed
         else
           && b.outPos == c.outPos + |sent| && c.outPos + |sent| <= |c.output| && Produced() == c.produced + sent
           && Written(c.output, c.outPos, sent, b.output[..], b.outSize)
           && var s := Feed(unpacker.u, c.state, b.input[c.inPos..b.inPos]);
              if v.Proceed? then Ready(b) && s == Abs()
              else if v.ret == XzOk then b.UsedUp() && StateOk() && Between() && s == Abs()
              else v.ret == XzStreamEnd && s == Finished(sum) && sequence.SeqStreamFooter?
    }

    // one round of the loop of dec_main
    method Round(b: XzBuf, ghost c: Beginning, ghost sent0: seq<byte>) returns (v: Verdict, ghost sent: seq<byte>)
      requires Wired() && Came(b, c, Proceed, sent0)
      modifies this, temp, unpacker, b`inPos, b`outPos, b.output
      ensures b.input[..] == old(b.input[..]) && Came(b, c, v, sent)
      ensures v.Proceed? ==> b.inPos > old(b.inPos) || (b.inPos == old(b.inPos) && Rank() < old(Rank()))
    {
      ghost var in1, output1 := b.inPos, b.output[..];
      ghost var more;
      v, more := OneStep(b);
      FedOn(b, c.state, c.inPos, in1);
      if v.Stop? && IsError(v.ret) {
        OfferedOn(b, c.state, c.inPos, in1);
        KeptOn(c.output, c.outPos, sent0, output1, b.output[..], b.outSize);
        sent := sent0;
      } else {
        WrittenTwice(c.output, c.outPos, sent0, output1, more, b.output[..], b.outSize);
        assert c.produced + sent0 + more == c.produced + (sent0 + more);
        sent := sent0 + more;
      }
    }

    lemma OfferedOn(b: XzBuf, s: State, in0: nat, in1: nat)
      requires b.Valid() && in0 <= in1 <= b.inSize
      ensures Feed(unpacker.u, s, b.input[in0..b.inSize])
        == Feed(unpacker.u, Feed(unpacker.u, s, b.input[in0..in1]), b.input[in1..b.inSize])
    {
      assert b.input[in0..b.inSize] == b.input[in0..in1] + b.input[in1..b.inSize];
      FeedSlices(unpacker.u, s, b.input[in0..in1], b.input[in1..b.inSize]);
    }

    /** xz_dec_run in multi-call mode. However the caller cuts up the input, as long as there is no error the
        decoder is where the machine is after the bytes taken, and what it has put out is what the machine has.
        An error means that the machine fails within the bytes offered, of which the decoder need not have
        taken all. XZ_BUF_ERROR is for the second call in a row without progress. */
    method Run(b: XzBuf, ghost taken: seq<byte>, ghost emitted: seq<byte>) returns (ret: XzRet, ghost sent: seq<byte>)
      requires Valid(taken, emitted) && b.Valid() && b.input != temp && b.output != temp
      modifies this, temp, unpacker, b`inPos, b`outPos, b.output
      ensures b.Valid() && old(b.inPos) <= b.inPos && b.input[..] == old(b.input[..])
      ensures !IsError(ret) ==> b.outPos == old(b.outPos) + |sent| && Written(old(b.output[..]), old(b.outPos), sent, b.output[..], b.outSize)
      ensures var all := taken + b.input[old(b.inPos)..b.inPos];
        && (ret == XzOk || ret == XzBufError ==> Valid(all, emitted + sent))
        && (ret == XzStreamEnd ==> Ends(unpacker.u, InStreamHeader([]), all, sum) && sum.out == emitted + sent)
      ensures IsError(ret) ==>
        KeptAround(b) && Feed(unpacker.u, InStreamHeader([]), taken + b.input[old(b.inPos)..b.inSize]) == Failed
      ensures ret == XzOk || ret == XzBufError ==> b.UsedUp()
      ensures allowBufError <==> (ret == XzOk || ret == XzBufError) && b.inPos == old(b.inPos) && b.outPos == old(b.outPos)
      ensures ret == XzBufError ==> old(allowBufError)
    {
      var in0, out0 := b.inPos, b.outPos;
      var allowed := allowBufError;
      ret, sent := DecMain(b);
      FeedSlices(unpacker.u, InStreamHeader([]), taken, b.input[in0..b.inPos]);
      FeedSlices(unpacker.u, InStreamHeader([]), taken, b.input[in0..b.inSize]);
      if ret == XzOk && in0 == b.inPos && out0 == b.outPos {
        if allowed {
          ret := XzBufError;
        }
        AllowBufError(true);
      } else {
        AllowBufError(false);
      }
    }

    /** Given all the rest of an accepted stream, and more room than its contents need, the call ends it. */
    method Finish(b: XzBuf, ghost taken: seq<byte>, ghost emitted: seq<byte>, ghost end: Sum) returns (ret: XzRet, ghost sent: seq<byte>)
      requires Valid(taken, emitted) && b.Valid() && b.input != temp && b.output != temp
      requires Ends(unpacker.u, InStreamHeader([]), taken + b.input[b.inPos..b.inSize], end)
      requires |end.out| < |emitted| + (b.outSize - b.outPos)
      modifies this, temp, unpacker, b`inPos, b`outPos, b.output
      ensures ret == XzStreamEnd && b.inPos == b.inSize && emitted + sent == end.out
      ensures b.outPos == old(b.outPos) + |sent| && Written(old(b.output[..]), old(b.outPos), sent, b.output[..], b.outSize)
    {
      ghost var in0, whole := b.inPos, taken + b.input[b.inPos..b.inSize];
      ret, sent := Run(b, taken, emitted);
      ghost var all := taken + b.input[in0..b.inPos];
      assert all == whole[..|all|];
      OneVerdict(unpacker.u, whole, all, end);
      if ret == XzOk || ret == XzBufError {
        NotEnded(all, emitted + sent, whole, end);
      }
    }

    /** A decoder that asks for more is not at the end of the stream, and what it has put out is a beginning of
        the contents of any accepted stream that goes on from there. */
    lemma NotEnded(taken: seq<byte>, emitted: seq<byte>, whole: seq<byte>, end: Sum)
      requires Valid(taken, emitted) && taken <= whole && Ends(unpacker.u, InStreamHeader([]), whole, end)
      ensures taken < whole && emitted <= end.out
    {
      var rest := whole[|taken|..];
      assert taken + rest == whole;
      FeedSlices(unpacker.u, InStreamHeader([]), taken, rest);
      NothingAfterFailure(unpacker.u, rest);
      ProducedDecoded();
      FeedAdds(unpacker.u, Abs(), rest);
      FeedNothing(unpacker.u, Abs());
    }

    lemma ProducedDecoded()
      requires Wired() && StateOk()
      ensures Abs() == Failed || (Proper(unpacker.u, Abs()) && !Abs().Finished? && Produced() <= Decoded(unpacker.u, Abs()))
    {
      StateIs();
      match sequence
      case SeqBlockUncompress => DataAdds(unpacker.u, sum, headerSize, h, unpacker.eaten);
      case SeqIndexCrc32 =>
      case SeqStreamFooter => FooterPart();
      case _ =>
    }

    lemma FooterPart()
      requires sequence.SeqStreamFooter? && FooterState()
      ensures FooterAt() == Failed || (FooterAt().Expecting? && FooterAt().next == Finished(sum))
    {
      var f := StreamFooter(sum.check, |raw|);
      if Got() <= f {
        ExpectPart(unpacker.u, f, Finished(sum), Got());
      } else {
        ExpectOther(unpacker.u, f, Finished(sum), Got());
      }
    }

    method AllowBufError(allow: bool)
      modifies `allowBufError
      ensures allowBufError == allow
      ensures StateOk() == old(StateOk()) && Abs() == old(Abs()) && Between() == old(Between()) && Produced() == old(Produced())
    {
      allowBufError := allow;
      KeepsOk();
      KeepsAbs();
    }

    // a new call begins
    method StartCall(b: XzBuf)
      modifies `inStart
      ensures inStart == b.inPos
      ensures StateOk() == old(StateOk()) && Abs() == old(Abs()) && Between() == old(Between()) && Produced() == old(Produced())
    {
      inStart := b.inPos;
      KeepsOk();
      KeepsAbs();
    }

    // nothing changes but where calls begin and end
    twostate predicate Same()
      reads this, temp, unpacker
    {
      && sequence == old(sequence) && pos == old(pos) && vli == old(vli) && crc32 == old(crc32)
      && checkType == old(checkType) && headerCompressed == old(headerCompressed)
      && headerUncompressed == old(headerUncompressed) && headerSize == old(headerSize)
      && blockCompressed == old(blockCompressed) && blockUncompressed == old(blockUncompressed)
      && blockCount == old(blockCount) && blockHash == old(blockHash)
      && indexSequence == old(indexSequence) && indexSize == old(indexSize) && indexCount == old(indexCount)
      && indexHash == old(indexHash) && tempPos == old(tempPos) && tempSize == old(tempSize)
      && sum == old(sum) && h == old(h) && part == old(part) && field == old(field) && base == old(base)
      && raw == old(raw) && summed == old(summed) && unchanged(temp) && unchanged(unpacker)
    }

    twostate lemma KeepsOk()
      requires Same()
      ensures StateOk() == old(StateOk())
    {
      OkAgain(SEAL);
    }

    twostate lemma {:induction false} OkAgain(seal: nat)
      requires Same()
      ensures SealedOk(seal) == old(SealedOk(seal))
      decreases seal
    {
      if seal > 0 {
        OkAgain(seal - 1);
      }
    }

    twostate lemma KeepsAbs()
      requires Same()
      ensures Abs() == old(Abs())
    {
      AbsAgain(SEAL);
    }

    twostate lemma {:induction false} AbsAgain(seal: nat)
      requires Same()
      ensures SealedAbs(seal) == old(SealedAbs(seal))
      decreases seal
    {
      if seal > 0 {
        AbsAgain(seal - 1);
      } else {
        assert Got() == old(Got()) && DataAt() == old(DataAt()) && CheckLeft() == old(CheckLeft());
        assert IndexCrcAt() == old(IndexCrcAt()) && FooterAt() == old(FooterAt());
      }
    }
  }

  /** There is one verdict on a stream: no beginning of an accepted one is refused, and none is accepted. */
  lemma OneVerdict(u: Setup, t: seq<byte>, t': seq<byte>, end: Sum)
    requires Ends(u, InStreamHeader([]), t, end) && t' <= t
    ensures Feed(u, InStreamHeader([]), t') != Failed
    ensures t' != t ==> !Feed(u, InStreamHeader([]), t').Finished?
  {
    var s, rest := Feed(u, InStreamHeader([]), t'), t[|t'|..];
    FeedSlices(u, InStreamHeader([]), t', rest);
    assert t' + rest == t;
    NothingAfterFailure(u, rest);
    if s.Finished? {
      NothingAfterEnd(u, s.sum, rest);
    }
  }

  // what is outside the output space is still the same after another step that leaves it alone
  lemma KeptOn(a: seq<byte>, at: nat, s: seq<byte>, o: seq<byte>, c: seq<byte>, end: nat)
    requires Written(a, at, s, o, end) && |c| == |o| && c[..at + |s|] == o[..at + |s|] && c[end..] == o[end..]
    ensures c[..at] == a[..at] && c[end..] == a[end..]
  {
    WrittenWhere(a, at, s, o, end);
    assert c[..at] == c[..at + |s|][..at] && o[..at] == o[..at + |s|][..at];
  }

  lemma MadeMore(s: seq<byte>, t: seq<byte>, m: nat, n: nat)
    requires s <= t && m <= |s| && m <= n <= |t|
    ensures s[..m] + t[m..n] == t[..n]
  {
    assert s[..m] == t[..m];
  }

  lemma NothingSummed()
    ensures Crc([], 0) == 0
  {
  }
}
