/**
 xz_dec_lzma2_run as the next stage sees it: what comes out of a call depends on the bytes eaten so far, and on
 nothing else.
 */
module Lzma2Source {
  import opened Common
  import opened Words
  import opened Memory
  import opened XzApi
  import opened Lzma2Decoder
  import M = Lzma2Model
  import P = Lzma2Prefix

  ghost function Eaten(d: XzDecLzma2): seq<byte>
    reads d
  {
    if d.taken <= |d.stream| then d.stream[..d.taken] else d.stream
  }

  /** What has been handed out comes from what was eaten, and the end has not been eaten yet. */
  ghost predicate Open(size: nat, eaten: seq<byte>, out: seq<byte>) {
    out <= P.Decoded(size, eaten).0 && P.Decoded(size, eaten).1 != P.Done
  }

  /** All of the stream is eaten, and all of the output is out: EndedParts under a name that proofs do not
      unfold. */
  ghost predicate Ended(size: nat, eaten: seq<byte>, out: seq<byte>) { SealedEnded(size, eaten, out, SEAL) }

  ghost predicate EndedParts(size: nat, eaten: seq<byte>, out: seq<byte>) {
    P.Decoded(size, eaten) == (out, P.Done) && forall k :: 0 <= k < |eaten| ==> P.Decoded(size, eaten[..k]).1 != P.Done
  }

  ghost predicate SealedEnded(size: nat, eaten: seq<byte>, out: seq<byte>, seal: nat)
    decreases seal, out
  {
    if seal == 0 then EndedParts(size, eaten, out) else SealedEnded(size, eaten, out, seal - 1)
  }

  lemma EndedIs(size: nat, eaten: seq<byte>, out: seq<byte>)
    ensures Ended(size, eaten, out) == EndedParts(size, eaten, out)
  {
    assert SealedEnded(size, eaten, out, 1) == SealedEnded(size, eaten, out, 0);
    assert SealedEnded(size, eaten, out, 2) == SealedEnded(size, eaten, out, 1);
    assert SealedEnded(size, eaten, out, 3) == SealedEnded(size, eaten, out, 2);
  }

  // these bytes cannot be decoded
  ghost predicate Wrong(size: nat, s: seq<byte>) { P.Decoded(size, s).1 == P.Bad }

  lemma NotBefore(size: nat, eaten: seq<byte>, k: nat)
    requires k <= |eaten| && P.Decoded(size, eaten).1 != P.Done
    ensures P.Decoded(size, eaten[..k]).1 != P.Done
  {
    P.DecodedGrows(size, eaten[..k], eaten);
  }

  lemma AlwaysOpen(d: XzDecLzma2)
    requires d.Valid()
    ensures d.taken <= |d.stream| && Open(d.dict.size, Eaten(d), d.emitted)
  {
    d.EmittedOnPath();
    d.Glimpse();
    d.StillOpen();
    P.ProducedWithin(d.dict.size, d.stream, d.taken, d.steps, d.Abs());
    var r, n := P.Frontier(d.dict.size, d.stream, d.taken);
    if r.place.Finished? {
      d.NotEnded(n, M.Produced(r), r.m.d.pos);
    }
  }

  lemma AtEnd(size: nat, before: seq<byte>, t: seq<byte>, n: nat, k: nat, out: seq<byte>)
    requires n <= |t| && M.Ends(size, before + t, M.Start(), k, out, |before| + n)
    ensures Ended(size, before + t[..n], out)
  {
    var stream, eaten, pos := before + t, before + t[..n], |before| + n;
    assert stream[..pos] == eaten;
    EndedIs(size, eaten, out);
    P.DecodedStream(size, stream, k, out, pos);
    forall j | 0 <= j < pos
      ensures P.Decoded(size, eaten[..j]).1 != P.Done
    {
      assert eaten[..j] == stream[..j];
    }
  }

  // an error is due to the bytes offered
  lemma AtError(size: nat, stream: seq<byte>, k: nat, out: seq<byte>)
    requires M.FailsWith(size, stream, |stream|, M.Start(), k, out, SEAL)
    ensures Wrong(size, stream)
  {
    P.BadWithin(size, stream, |stream|, k, out);
    assert stream[..|stream|] == stream;
  }

  /** xz_dec_lzma2_run */
  method Run(d: XzDecLzma2, b: XzBuf) returns (ret: XzRet, ghost sent: seq<byte>)
    requires d.Valid() && d.Apart(b)
    modifies d, d.rc, d.lzma, d.dict, d.lzma.probs, d.dict.buf, d.temp, b`inPos, b`outPos, b.output
    ensures b.Valid() && old(b.inPos) <= b.inPos && b.input[..] == old(b.input[..]) && d.dict.size == old(d.dict.size)
    ensures b.outPos == old(b.outPos) + |sent| && b.output[..] == Overwrite(old(b.output[..]), old(b.outPos), sent)
    ensures ret == XzOk || ret == XzStreamEnd || ret == XzDataError
    ensures var eaten, out := old(Eaten(d)) + b.input[old(b.inPos)..b.inPos], old(d.emitted) + sent;
      && (ret == XzOk ==> d.Valid() && Eaten(d) == eaten && d.emitted == out && b.UsedUp())
      && (ret == XzStreamEnd ==> Ended(d.dict.size, eaten, out))
    ensures ret == XzDataError ==> Wrong(d.dict.size, old(Eaten(d)) + old(b.input[b.inPos..b.inSize]))
  {
    AlwaysOpen(d);
    ghost var before, out0 := Eaten(d), d.emitted;
    d.Supply(b);
    ret, sent := RunSupplied(d, b, before, out0);
  }

  // ... when the stream is taken to end with what is offered
  method RunSupplied(d: XzDecLzma2, b: XzBuf, ghost before: seq<byte>, ghost out0: seq<byte>) returns (ret: XzRet, ghost sent: seq<byte>)
    requires d.Valid() && d.Apart(b) && d.Promised(b)
    requires d.stream == before + b.input[b.inPos..b.inSize] && d.taken == |before| && d.emitted == out0
    modifies d, d.rc, d.lzma, d.dict, d.lzma.probs, d.dict.buf, d.temp, b`inPos, b`outPos, b.output
    ensures b.Valid() && old(b.inPos) <= b.inPos && b.input[..] == old(b.input[..]) && d.dict.size == old(d.dict.size)
    ensures b.outPos == old(b.outPos) + |sent| && b.output[..] == Overwrite(old(b.output[..]), old(b.outPos), sent)
    ensures ret == XzOk || ret == XzStreamEnd || ret == XzDataError
    ensures var eaten := before + b.input[old(b.inPos)..b.inPos];
      && (ret == XzOk ==> d.Valid() && Eaten(d) == eaten && d.emitted == out0 + sent && b.UsedUp())
      && (ret == XzStreamEnd ==> Ended(d.dict.size, eaten, out0 + sent))
    ensures ret == XzDataError ==> Wrong(d.dict.size, before + old(b.input[b.inPos..b.inSize]))
  {
    ghost var i0, t := b.inPos, b.input[b.inPos..b.inSize];
    ret, sent := d.Run(b);
    assert b.input[i0..b.inPos] == t[..b.inPos - i0];
    if ret == XzDataError {
      AtError(d.dict.size, before + t, d.steps, out0 + sent);
    } else if ret == XzStreamEnd {
      AtEnd(d.dict.size, before, t, b.inPos - i0, d.steps, out0 + sent);
    } else {
      assert (before + t)[..|before| + (b.inPos - i0)] == before + t[..b.inPos - i0];
    }
  }
}
