/**
 xz_dec_lzma2_run, and xz_dec_bcj_run on top of it, behind the interface that the container decoder counts on: the
 decoders of Lzma2Decoder and BcjDecoder do what XzStream.Unpacker.Run promises.
 */
module XzLzma2 {
  import opened Common
  import opened Words
  import opened Memory
  import opened XzApi
  import opened XzFormat
  import opened XzMachine
  import opened XzSteps
  import opened XzEndToEnd
  import opened Lzma2Decoder
  import opened S = Lzma2Source
  import opened BcjDecoder
  import B = BcjX86
  import M = Lzma2Model
  import P = Lzma2Prefix

  /** What happens without an error: bytes are eaten, none of them behind the end, and of the output they
      stand for the next piece is given, `made` bytes in all so far. */
  ghost predicate Ran(f: Filters, before: seq<byte>, given: nat, read: seq<byte>, eaten: seq<byte>, made: nat, sent: seq<byte>) {
    var out := Unpack(f, eaten).out;
    && eaten == before + read && given <= made <= |out| && sent == out[given..made]
    && forall k :: |before| <= k < |eaten| ==> Unpack(f, eaten[..k]).status != Over
  }

  // the end has not been passed
  ghost predicate NotPassed(f: Filters, eaten: seq<byte>) {
    forall k :: 0 <= k < |eaten| ==> Unpack(f, eaten[..k]).status != Over
  }

  lemma SentIs(f: Filters, before: seq<byte>, read: seq<byte>, emitted: seq<byte>, sent: seq<byte>)
    requires emitted + sent <= Unpack(f, before + read).out && NotPassed(f, before + read)
    ensures Ran(f, before, |emitted|, read, before + read, |emitted + sent|, sent)
  {
    assert (emitted + sent)[|emitted|..] == sent;
  }

  lemma OpenIs(f: Filters, eaten: seq<byte>, out: seq<byte>)
    requires Open(M.DictSize(f.props), eaten, out)
    ensures NotPassed(f, eaten) && (f.bcj.None? ==> out <= Unpack(f, eaten).out)
    ensures f.bcj.Some? ==> B.Filter(0, 0, out).out <= Unpack(f, eaten).out
  {
    var (all, progress) := P.Decoded(M.DictSize(f.props), eaten);
    ConvertedGrows(out, all, progress.Done?);
    forall k | 0 <= k < |eaten|
      ensures Unpack(f, eaten[..k]).status != Over
    {
      NotBefore(M.DictSize(f.props), eaten, k);
    }
  }

  lemma AllEaten(f: Filters, eaten: seq<byte>, out: seq<byte>)
    requires Ended(M.DictSize(f.props), eaten, out)
    ensures NotPassed(f, eaten) && Unpack(f, eaten) == Unpacked(if f.bcj.Some? then B.Whole(out) else out, Over)
  {
    EndedIs(M.DictSize(f.props), eaten, out);
  }

  /** An error is due to the bytes offered. */
  lemma WrongIs(f: Filters, dictMax: nat, before: seq<byte>, t: seq<byte>)
    requires Wrong(M.DictSize(f.props), before + t)
    ensures Breaks(RealSetup(dictMax), f, before, t)
  {
    var u := RealSetup(dictMax);
    assert t[..|t|] == t;
    forall j | 0 <= j < |t|
      ensures u.unpack(f, before + t[..j]).status != Over
    {
      assert (before + t)[..|before| + j] == before + t[..j];
      NotBefore(M.DictSize(f.props), before + t, |before| + j);
    }
    assert BreaksAt(u, f, before, t[..|t|]);
  }

  /** The decoder of a Block with these filters, wherever it has come to. */
  ghost predicate Decodes(d: XzDecLzma2, f: Filters)
    reads d, d.lzma, d.rc`range, d.rc`code, d.rc`initBytesLeft, d.lzma.probs, d.dict.buf, d.temp
    reads d.dict`start, d.dict`pos, d.dict`full, d.dict`end, d.dict`size, d.dict`hist, d.dict`laps, d.dict`units
  {
    d.Valid() && f.bcj.None? && d.dict.size == M.DictSize(f.props)
  }

  /** xz_dec_lzma2_run, told like XzStream.Unpacker.Run. */
  method Run(d: XzDecLzma2, f: Filters, b: XzBuf, ghost dictMax: nat)
    returns (ret: XzRet, ghost eaten: seq<byte>, ghost made: nat, ghost sent: seq<byte>)
    requires Decodes(d, f) && d.Apart(b)
    modifies d, d.rc, d.lzma, d.dict, d.lzma.probs, d.dict.buf, d.temp, b`inPos, b`outPos, b.output
    ensures b.Valid() && old(b.inPos) <= b.inPos && b.input[..] == old(b.input[..])
    ensures b.outPos == old(b.outPos) + |sent| && Written(old(b.output[..]), old(b.outPos), sent, b.output[..], b.outSize)
    ensures ret == XzOk || ret == XzStreamEnd || ret == XzDataError
    ensures ret != XzDataError ==> Ran(f, old(Eaten(d)), |old(d.emitted)|, b.input[old(b.inPos)..b.inPos], eaten, made, sent)
    ensures ret == XzOk ==> Decodes(d, f) && eaten == Eaten(d) && made == |d.emitted| && b.UsedUp()
    ensures ret == XzStreamEnd ==> Unpack(f, eaten).status == Over && made == |Unpack(f, eaten).out|
    ensures ret == XzDataError ==> Breaks(RealSetup(dictMax), f, old(Eaten(d)), old(b.input[b.inPos..b.inSize]))
  {
    ghost var before, m0, in0, t := Eaten(d), d.emitted, b.inPos, b.input[b.inPos..b.inSize];
    ret, sent := S.Run(d, b);
    OverwriteWritten(old(b.output[..]), old(b.outPos), sent, b.outSize);
    ghost var read := b.input[in0..b.inPos];
    eaten, made := before + read, |m0 + sent|;
    if ret == XzDataError {
      WrongIs(f, dictMax, before, t);
    } else {
      if ret == XzStreamEnd {
        AllEaten(f, eaten, m0 + sent);
      } else {
        AlwaysOpen(d);
        OpenIs(f, eaten, m0 + sent);
      }
      SentIs(f, before, read, m0, sent);
    }
  }

  // ---- with the x86 filter

  /** The two decoders of a Block with the x86 filter. */
  ghost predicate DecodesX86(x: XzDecBcj, d: XzDecLzma2, f: Filters)
    reads x, x.temp
    reads d, d.lzma, d.rc`range, d.rc`code, d.rc`initBytesLeft, d.lzma.probs, d.dict.buf, d.temp
    reads d.dict`start, d.dict`pos, d.dict`full, d.dict`end, d.dict`size, d.dict`hist, d.dict`laps, d.dict`units
  {
    x.Valid() && x.Resumable() && x.Fed(d) && !x.singleCall && f.bcj.Some? && d.dict.size == M.DictSize(f.props)
  }

  lemma EmittedIs(x: XzDecBcj, d: XzDecLzma2, f: Filters)
    requires x.Fed(d) && f.bcj.Some? && d.dict.size == M.DictSize(f.props)
    requires x.ret == XzOk || x.ret == XzStreamEnd
    ensures NotPassed(f, x.eaten)
    ensures x.Valid() ==> x.emitted <= Unpack(f, x.eaten).out
    ensures x.ret == XzStreamEnd ==> Unpack(f, x.eaten) == Unpacked(B.Whole(x.fed), Over)
  {
    if x.ret == XzOk {
      AlwaysOpen(d);
      OpenIs(f, x.eaten, x.fed);
    } else {
      AllEaten(f, x.eaten, x.fed);
    }
  }

  /** xz_dec_bcj_run on top of xz_dec_lzma2_run, told like XzStream.Unpacker.Run. */
  method RunX86(x: XzDecBcj, d: XzDecLzma2, f: Filters, b: XzBuf, ghost dictMax: nat)
    returns (ret: XzRet, ghost sent: seq<byte>)
    requires DecodesX86(x, d, f) && x.Away(d, b)
    modifies d, d.rc, d.lzma, d.dict, d.lzma.probs, d.dict.buf, d.temp, b`inPos, b`outPos, b.output
    modifies x, x.temp
    ensures b.Valid() && old(b.inPos) <= b.inPos && old(b.outPos) <= b.outPos && b.input[..] == old(b.input[..])
    ensures ret == XzOk || ret == XzStreamEnd || ret == XzDataError
    ensures ret != XzDataError ==>
      && b.outPos == old(b.outPos) + |sent| && Written(old(b.output[..]), old(b.outPos), sent, b.output[..], b.outSize)
      && Ran(f, old(x.eaten), |old(x.emitted)|, b.input[old(b.inPos)..b.inPos], x.eaten, |x.emitted|, sent)
    ensures ret == XzOk ==> DecodesX86(x, d, f) && b.UsedUp()
    ensures ret == XzStreamEnd ==> Unpack(f, x.eaten).status == Over && |x.emitted| == |Unpack(f, x.eaten).out|
    ensures ret == XzDataError ==>
      && Breaks(RealSetup(dictMax), f, old(x.eaten), old(b.input[b.inPos..b.inSize]))
      && b.output[..old(b.outPos)] == old(b.output[..b.outPos]) && b.output[b.outSize..] == old(b.output[b.outSize..])
  {
    ghost var before, m0, in0, at, t := x.eaten, x.emitted, b.inPos, b.outPos, b.input[b.inPos..b.inSize];
    ret := x.Run(d, b);
    sent := b.output[at..b.outPos];
    if ret == XzDataError {
      WrongIs(f, dictMax, before, t);
    } else {
      EmittedIs(x, d, f);
      SentIs(f, before, b.input[in0..b.inPos], m0, sent);
      assert b.output[..b.outPos] == b.output[..at] + sent;
    }
  }
}
