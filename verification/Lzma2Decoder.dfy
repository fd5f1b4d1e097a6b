/**
 struct xz_dec_lzma2 of compat/xz_dec_lzma2.c: the resumable decoder that a caller feeds with slices of
 the stream and gives slices of output space. Every call moves along the one path that the machine of
 Lzma2Model takes over the whole stream, wherever the slices end.
 */
module Lzma2Decoder {
  import opened Arithmetic
  import opened Common
  import opened RangeBounds
  import opened RangeCoder
  import opened Words
  import opened LzmaLayout
  import opened LzmaSymbols
  import opened LzmaRun
  import opened LzmaModel
  import opened RangeDecoder
  import opened Dictionary
  import opened Memory
  import opened XzApi
  import opened LzmaDecoder
  import M = Lzma2Model
  import P = Lzma2Prefix

  const LZMA_IN_REQUIRED: nat := 21

  datatype Sequence =
    | SeqControl | SeqUncompressed1 | SeqUncompressed2 | SeqCompressed0 | SeqCompressed1
    | SeqProperties | SeqLzmaPrepare | SeqLzmaRun | SeqCopy

  // how the handling of one byte or chunk ends: carry on, wait for the caller, or return an error
  datatype Verdict = Going | Waiting | Bad | AtEnd

  class XzDecLzma2 {
    const rc: RangeDec
    const dict: Dict
    const lzma: LzmaDec
    const temp: array<byte>
    var tempSize: nat
    var sequence: Sequence
    var nextSequence: Sequence
    var uncompressed: nat
    var compressed: nat
    var needDictReset: bool
    var needProps: bool
    ghost var stream: seq<byte>   // all that the caller is going to supply
    ghost var offered: nat        // how much of it has been offered so far
    ghost var taken: nat          // how much of it was taken from the caller
    ghost var before: seq<byte>   // what was produced before the last dictionary reset
    ghost var emitted: seq<byte>  // what was handed to the caller so far
    ghost var steps: nat          // how far the machine has come from its start

    /** xz_dec_lzma2_create, with a dictionary of `dictMax` bytes allocated at once (XZ_PREALLOC). */
    constructor (dictMax: nat)
      ensures Wired() && dict.buf.Length == dictMax
      ensures fresh(rc) && fresh(dict) && fresh(dict.buf) && fresh(lzma) && fresh(lzma.probs) && fresh(temp)
    {
      var buf := new byte[dictMax];
      var probs := new Prob[PROBS_TOTAL];
      var small := new byte[63];
      var r := new RangeDec(small);
      var d := new Dict(buf);
      var l := new LzmaDec(r, d, probs);
      temp, rc, dict, lzma := small, r, d, l;
      tempSize, sequence, nextSequence := 0, SeqControl, SeqControl;
      uncompressed, compressed, needDictReset, needProps := 0, 0, true, true;
      stream, offered, taken, before, emitted, steps := [], 0, 0, [], [], 0;
    }

    // ---- an LZMA chunk under way

    /** The machine in the middle of an LZMA chunk, `p` bytes of the stream read and `c` left in the chunk.
        Bytes not flushed yet and the pending part of a match count as produced. */
    ghost function View(p: nat, c: nat): M.Lzma2
      reads `uncompressed, `before, lzma, rc`range, rc`code, lzma.probs
      reads dict`hist, dict`pos, dict`start
    {
      M.Lzma2(M.LzmaRun(uncompressed - lzma.len - (dict.pos - dict.start), c), M.Nothing, lzma.Properties(),
              Machine(Dec(rc.range, rc.code, lzma.probs[..], p), lzma.Lz(), Completed(dict.hist, lzma.rep0, lzma.len)), before)
    }

    ghost predicate Wired()
      reads lzma
    {
      && lzma.rc == rc && lzma.dict == dict && temp.Length == 63 && temp != dict.buf
    }

    // All but what came after `start` has been handed to the caller.
    ghost predicate Flushed()
      reads `before, `emitted, dict`hist, dict`pos, dict`start
    {
      && dict.start <= dict.pos && dict.pos - dict.start <= |dict.hist|
      && emitted == before + dict.hist[..|dict.hist| - (dict.pos - dict.start)]
    }

    /** Ready for lzma_main: PrimedParts under a name that proofs do not unfold. */
    ghost predicate Primed()
      reads `uncompressed, `before, `emitted, lzma, rc`range, rc`code, lzma.probs, dict.buf
      reads dict`start, dict`pos, dict`full, dict`end, dict`size, dict`hist, dict`laps, dict`units, dict`limit
    {
      SealedPrimed(this, SEAL)
    }

    ghost predicate PrimedParts()
      reads `uncompressed, `before, `emitted, lzma, rc`range, rc`code, lzma.probs, dict.buf
      reads dict`start, dict`pos, dict`full, dict`end, dict`size, dict`hist, dict`laps, dict`units, dict`limit
    {
      && Wired() && Sound(lzma, SEAL) && TOP <= rc.range
      && dict.pos <= dict.limit <= dict.end && dict.start <= dict.pos && dict.limit - dict.start <= uncompressed
      && Flushed()
    }

    lemma PrimedIs()
      ensures Primed() <==> PrimedParts()
    {
      assert SealedPrimed(this, 3) <==> SealedPrimed(this, 2);
      assert SealedPrimed(this, 2) <==> SealedPrimed(this, 1);
      assert SealedPrimed(this, 1) <==> SealedPrimed(this, 0);
    }

    lemma PrimedOk(p: nat)
      requires Primed()
      ensures PrimedParts() && M.Lzma2Ok(dict.size, View(p, compressed))
      ensures |Completed(dict.hist, lzma.rep0, lzma.len)| == |dict.hist| + lzma.len
    {
      PrimedIs();
      lzma.SoundIs();
    }

    lemma FlushedStill(h0: seq<byte>, pos0: nat)
      requires lzma.dict == dict && lzma.Grown(pos0, h0) && dict.start <= pos0 && pos0 - dict.start <= |h0|
      requires emitted == before + h0[..|h0| - (pos0 - dict.start)]
      ensures Flushed()
    {
      assert dict.hist[..|h0|] == h0;
      assert dict.hist[..|h0|][..|h0| - (pos0 - dict.start)] == dict.hist[..|h0| - (pos0 - dict.start)];
    }

    /** Calls lzma_main on `src`, which from `at` to `e` holds what the stream holds from `p` on. The input
        limit keeps every read inside `src`. */
    method Decode(src: array<byte>, at: nat, lim: nat, ghost e: nat, ghost p: nat) returns (ok: bool, ghost k: nat)
      requires Primed() && src != dict.buf && at <= lim && lim + LZMA_IN_REQUIRED <= src.Length
      requires at <= e && SameBytes(src[..], M.Upto(stream, p + compressed), at, e, p - at)
      requires e == at + compressed || (lim + LZMA_IN_REQUIRED <= e <= at + compressed)
      requires p + (e - at) <= offered <= |stream|
      modifies rc`range, rc`code, rc`inPos, rc`inLimit, rc`input, lzma.probs
      modifies lzma`state, lzma`rep0, lzma`rep1, lzma`rep2, lzma`rep3, lzma`len
      modifies dict`pos, dict`full, dict`hist, dict.buf
      ensures src[..] == old(src[..])
      ensures ok && rc.inPos <= e ==>
        && Primed() && at <= rc.inPos
        && M.Path(dict.size, stream, old(View(p, compressed)), k, View(p + (rc.inPos - at), compressed - (rc.inPos - at)), SEAL)
        && dict.pos >= old(dict.pos) && (old(dict.pos < dict.limit) ==> dict.pos > old(dict.pos))
      ensures !ok || rc.inPos > e ==> M.Fails(dict.size, stream, offered, old(View(p, compressed)), k, SEAL)
      ensures ok ==> rc.inPos <= lim + LZMA_IN_REQUIRED
    {
      PrimedOk(p);
      ghost var s := View(p, compressed);
      ghost var m, bound := M.MovedMachine(s.m, at - p), |dict.hist| + (dict.limit - dict.pos);
      ghost var n, last;
      ok, n, last := CallMain(src, at, lim, p);
      k := M.WentOn(dict.size, stream, offered, s, m, src[..], p - at, e, lim + 1, n, bound, last, ok);
    }

    /** The call itself, told in terms of the stream. */
    method CallMain(src: array<byte>, at: nat, lim: nat, ghost p: nat) returns (ok: bool, ghost n: nat, ghost last: Machine)
      requires Primed() && src != dict.buf && at <= lim && lim + LZMA_IN_REQUIRED <= src.Length
      modifies rc`range, rc`code, rc`inPos, rc`inLimit, rc`input, lzma.probs
      modifies lzma`state, lzma`rep0, lzma`rep1, lzma`rep2, lzma`rep3, lzma`len
      modifies dict`pos, dict`full, dict`hist, dict.buf
      ensures src[..] == old(src[..])
      ensures Went(lzma.Config(), M.MovedMachine(old(View(p, 0)).m, at - p), src[..], n,
                   |old(dict.hist)| + old(dict.limit - dict.pos), lim + 1, last, ok, SEAL)
      ensures ok ==>
        && Primed() && last.d.pos == rc.inPos <= lim + LZMA_IN_REQUIRED
        && (at <= rc.inPos <= at + compressed ==>
             View(p + (rc.inPos - at), compressed - (rc.inPos - at)) == M.Advanced(old(View(p, compressed)), last, p - at))
      ensures ok ==>
        && dict.pos >= old(dict.pos) && (old(dict.pos < dict.limit) ==> dict.pos > old(dict.pos))
    {
      PrimedIs();
      rc.input, rc.inPos, rc.inLimit := src, at, lim;
      ok, n, last := MainOn(p);
    }

    method MainOn(ghost p: nat) returns (ok: bool, ghost n: nat, ghost last: Machine)
      requires Primed() && rc.input != dict.buf && rc.inPos <= rc.inLimit && rc.inLimit + LZMA_IN_REQUIRED <= rc.input.Length
      modifies rc`range, rc`code, rc`inPos, lzma.probs
      modifies lzma`state, lzma`rep0, lzma`rep1, lzma`rep2, lzma`rep3, lzma`len
      modifies dict`pos, dict`full, dict`hist, dict.buf
      ensures rc.input[..] == old(rc.input[..])
      ensures Went(lzma.Config(), M.MovedMachine(old(View(p, 0)).m, old(rc.inPos) - p), rc.input[..], n,
                   |old(dict.hist)| + old(dict.limit - dict.pos), rc.inLimit + 1, last, ok, SEAL)
      ensures ok ==>
        && Primed() && last.d.pos == rc.inPos <= rc.inLimit + LZMA_IN_REQUIRED
        && (old(rc.inPos) <= rc.inPos <= old(rc.inPos) + compressed ==>
             View(p + (rc.inPos - old(rc.inPos)), compressed - (rc.inPos - old(rc.inPos)))
               == M.Advanced(old(View(p, compressed)), last, p - old(rc.inPos)))
      ensures ok ==>
        && dict.pos >= old(dict.pos) && (old(dict.pos < dict.limit) ==> dict.pos > old(dict.pos))
    {
      PrimedOk(p);
      ghost var h0, pos0, s0, at := dict.hist, dict.pos, View(p, compressed), rc.inPos;
      assert lzma.Ahead() == M.MovedMachine(s0.m, at - p);
      ok, n, last := lzma.LzmaMain();
      if ok {
        FlushedStill(h0, pos0);
        StillPrimed(p);
        ViewAfter(s0, last, p, at);
      }
    }

    // the machine when lzma_main has come to `last`
    lemma ViewAfter(s0: M.Lzma2, last: Machine, p: nat, at: nat)
      requires last == lzma.Ahead() && lzma.rc == rc && lzma.dict == dict
      requires |Completed(dict.hist, lzma.rep0, lzma.len)| == |dict.hist| + lzma.len
      requires var k := |dict.hist| - (dict.pos - dict.start);
        s0 == M.Lzma2(M.LzmaRun(uncompressed + k - |s0.m.hist|, compressed), M.Nothing, lzma.Properties(), s0.m, before)
      requires s0.m.d.pos == p
      ensures at <= rc.inPos <= at + compressed ==>
        View(p + (rc.inPos - at), compressed - (rc.inPos - at)) == M.Advanced(s0, last, p - at)
    {
    }

    lemma StillPrimed(p: nat)
      requires Wired() && Sound(lzma, SEAL) && TOP <= rc.range && Flushed()
      requires dict.pos <= dict.limit <= dict.end && dict.start <= dict.pos && dict.limit - dict.start <= uncompressed
      ensures Primed() && |Completed(dict.hist, lzma.rep0, lzma.len)| == |dict.hist| + lzma.len
    {
      PrimedIs();
      PrimedOk(p);
    }

    // ---- the hand-over between the caller's input and the temporary buffer

    // The buffer holds the latest bytes taken.
    ghost predicate Parked()
      reads `tempSize, `taken, `stream, temp
    {
      tempSize < LZMA_IN_REQUIRED && tempSize <= taken <= |stream| && Agrees(temp[..], 0, tempSize, stream, taken - tempSize, SEAL)
    }

    // What the caller offers is how the stream goes on.
    ghost predicate Promised(b: XzBuf)
      reads `taken, `stream, b, b.input
    {
      Agrees(b.input[..], b.inPos, b.inSize, stream, taken, SEAL)
    }

    ghost predicate Offered(b: XzBuf)
      reads `taken, `stream, `offered, b, b.input
    {
      Promised(b) && b.inPos <= b.inSize && taken + (b.inSize - b.inPos) == offered <= |stream|
    }

    ghost predicate Running()
      reads `uncompressed, `compressed, `before, `emitted, `tempSize, `taken, `stream, lzma, rc`range, rc`code, lzma.probs, dict.buf, temp
      reads dict`start, dict`pos, dict`full, dict`end, dict`size, dict`hist, dict`laps, dict`units, dict`limit
    {
      Primed() && Parked() && tempSize <= compressed
    }

    ghost predicate Apart(b: XzBuf)
      reads b
    {
      b.Valid() && dict.buf != b.input && dict.buf != b.output && temp != b.input && temp != b.output
    }

    /** The machine as it is now: bytes parked in the temporary buffer have not been read yet. */
    ghost function Here(): M.Lzma2
      reads `uncompressed, `compressed, `before, `tempSize, `taken, lzma, rc`range, rc`code, lzma.probs
      reads dict`hist, dict`pos, dict`start
    {
      View(if tempSize <= taken then taken - tempSize else 0, compressed)
    }

    /** Fills the temporary buffer up: with input, and with zeros if that is all there is to the chunk. */
    method Fill(b: XzBuf) returns (tmp: nat)
      requires Wired() && Parked() && tempSize <= compressed && Apart(b) && Offered(b)
      modifies temp
      ensures tmp == Min(Min(2 * LZMA_IN_REQUIRED - tempSize, compressed - tempSize), b.inSize - b.inPos)
      ensures Parked() && Agrees(temp[..], 0, tempSize + tmp, stream, taken - tempSize, SEAL)
    {
      var inAvail := b.inSize - b.inPos;
      tmp := Min(Min(2 * LZMA_IN_REQUIRED - tempSize, compressed - tempSize), inAvail);
      ghost var t0, inp := temp[..], b.input[..];
      AppendToTemp(b.input, b.inPos, tmp);
      AgreesJoin(t0, tempSize, inp, b.inPos, b.inSize, stream, taken, tmp, temp[..]);
    }

    method AppendToTemp(src: array<byte>, at: nat, n: nat)
      requires src != temp && tempSize + n <= temp.Length && at + n <= src.Length
      modifies temp
      ensures temp[..tempSize + n] == old(temp[..])[..tempSize] + src[..][at..at + n]
    {
      ghost var t0, inp := temp[..], src[..];
      MemCopy(src, at, temp, tempSize, n);
      OverwriteIs(t0, tempSize, inp[at..at + n]);
      assert temp[..tempSize + n] == t0[..tempSize] + inp[at..at + n];
      if tempSize + n == compressed {
        ClearTemp(tempSize + n);
      }
    }

    // memzero behind the end of the chunk
    method ClearTemp(n: nat)
      requires n <= temp.Length
      modifies temp
      ensures temp[..n] == old(temp[..n])
    {
      forall i | n <= i < temp.Length {
        temp[i] := 0;
      }
    }

    // Input moves from the caller to the decoder.
    ghost predicate TookFrom(b: XzBuf, inPos: nat, t: nat)
      reads `taken, b
    {
      inPos <= b.inPos <= b.inSize && taken == t + (b.inPos - inPos)
    }

    /** The first part of lzma2_lzma: decodes from the temporary buffer. */
    method FromTemp(b: XzBuf) returns (ok: bool, done: bool, ghost k: nat)
      requires Running() && Apart(b) && Offered(b)
      modifies rc`range, rc`code, rc`inPos, rc`inLimit, rc`input, lzma.probs
      modifies lzma`state, lzma`rep0, lzma`rep1, lzma`rep2, lzma`rep3, lzma`len
      modifies dict`pos, dict`full, dict`hist, dict.buf
      modifies temp, `tempSize, `compressed, `taken, b`inPos
      ensures b.input[..] == old(b.input[..])
      ensures ok ==>
        && Running() && Offered(b) && TookFrom(b, old(b.inPos), old(taken)) && (done || tempSize == 0)
        && M.Path(dict.size, stream, old(Here()), k, Here(), SEAL)
        && (old(dict.pos < dict.limit) ==> dict.pos > old(dict.pos) || (done && b.inPos == b.inSize && tempSize < compressed))
      ensures !ok ==> M.Fails(dict.size, stream, offered, old(Here()), k, SEAL)
      ensures old(b.inPos) <= b.inPos <= b.inSize
    {
      PrimedOk(taken - tempSize);
      var tmp := Fill(b);
      assert Here() == old(Here()) && Primed() && Offered(b);
      if tempSize + tmp < LZMA_IN_REQUIRED && tempSize + tmp != compressed {
        M.PathStep(dict.size, stream, Here());
        Gather(b, tmp);
        return true, true, 0;
      }
      ok, done, k := DecodeAndSettle(b, tmp);
    }

    method DecodeAndSettle(b: XzBuf, tmp: nat) returns (ok: bool, done: bool, ghost k: nat)
      requires Running() && Apart(b) && Offered(b)
      requires tempSize + tmp <= compressed && tempSize + tmp <= 2 * LZMA_IN_REQUIRED && b.inPos + tmp <= b.inSize
      requires tempSize + tmp == compressed || tempSize + tmp >= LZMA_IN_REQUIRED
      requires Agrees(temp[..], 0, tempSize + tmp, stream, taken - tempSize, SEAL)
      modifies rc`range, rc`code, rc`inPos, rc`inLimit, rc`input, lzma.probs
      modifies lzma`state, lzma`rep0, lzma`rep1, lzma`rep2, lzma`rep3, lzma`len
      modifies dict`pos, dict`full, dict`hist, dict.buf
      modifies temp, `tempSize, `compressed, `taken, b`inPos
      ensures b.input[..] == old(b.input[..])
      ensures ok ==>
        && Running() && Offered(b) && TookFrom(b, old(b.inPos), old(taken)) && (done || tempSize == 0)
        && M.Path(dict.size, stream, old(Here()), k, Here(), SEAL)
        && dict.pos >= old(dict.pos) && (old(dict.pos < dict.limit) ==> dict.pos > old(dict.pos))
      ensures !ok ==> M.Fails(dict.size, stream, offered, old(Here()), k, SEAL)
      ensures old(b.inPos) <= b.inPos <= b.inSize
    {
      done := false;
      ok, k := DecodeTemp(tempSize + tmp);
      if ok {
        done := Settle(b, tmp);
      }
    }

    /** Decodes from the `filled` bytes of the temporary buffer. At the end of the chunk these are all
        there is; otherwise enough of them are kept back. */
    method DecodeTemp(filled: nat) returns (ok: bool, ghost k: nat)
      requires Primed() && tempSize <= taken && filled <= compressed && filled <= 2 * LZMA_IN_REQUIRED
      requires filled == compressed || filled >= LZMA_IN_REQUIRED
      requires Agrees(temp[..], 0, filled, stream, taken - tempSize, SEAL) && taken - tempSize + filled <= offered <= |stream|
      modifies rc`range, rc`code, rc`inPos, rc`inLimit, rc`input, lzma.probs
      modifies lzma`state, lzma`rep0, lzma`rep1, lzma`rep2, lzma`rep3, lzma`len
      modifies dict`pos, dict`full, dict`hist, dict.buf
      ensures temp[..] == old(temp[..])
      ensures ok ==>
        && Primed() && rc.inPos <= filled
        && M.Path(dict.size, stream, old(Here()), k, View(taken - tempSize + rc.inPos, compressed - rc.inPos), SEAL)
        && dict.pos >= old(dict.pos) && (old(dict.pos < dict.limit) ==> dict.pos > old(dict.pos))
      ensures !ok ==> M.Fails(dict.size, stream, offered, old(Here()), k, SEAL)
    {
      PrimedIs();
      ghost var p := taken - tempSize;
      var lim := if filled == compressed then filled else filled - LZMA_IN_REQUIRED;
      AgreesIs(temp[..], 0, filled, stream, p);
      M.SameUpto(temp[..], stream, 0, filled, p, p + compressed);
      ok, k := Decode(temp, 0, lim, filled, p);
      ok := ok && rc.inPos <= filled;
    }

    /** Too little input to decode a symbol safely: it waits in the temporary buffer. */
    method Gather(b: XzBuf, tmp: nat)
      requires Primed() && tempSize <= taken && Apart(b) && Offered(b) && b.inPos + tmp <= b.inSize
      requires Agrees(temp[..], 0, tempSize + tmp, stream, taken - tempSize, SEAL)
      requires tempSize + tmp < LZMA_IN_REQUIRED && tempSize + tmp <= compressed
      modifies `tempSize, `taken, b`inPos
      ensures Running() && Offered(b) && TookFrom(b, old(b.inPos), old(taken)) && b.inPos == old(b.inPos) + tmp
      ensures Here() == old(Here()) && tempSize == old(tempSize) + tmp
    {
      AgreesIs(b.input[..], b.inPos, b.inSize, stream, taken);
      AgreesLater(b.input[..], b.inPos, b.inSize, stream, taken, tmp);
      tempSize := tempSize + tmp;
      b.inPos, taken := b.inPos + tmp, taken + tmp;
    }

    /** After decoding: what was read of the temporary buffer is dropped; when nothing but input put there
        just now is left of it, that is taken back and decoding can go on from the caller's buffer. */
    method Settle(b: XzBuf, tmp: nat) returns (done: bool)
      requires Primed() && Parked() && Apart(b) && Offered(b)
      requires Agrees(temp[..], 0, tempSize + tmp, stream, taken - tempSize, SEAL) && b.inPos + tmp <= b.inSize
      requires rc.inPos <= tempSize + tmp <= compressed
      modifies temp, `tempSize, `compressed, `taken, b`inPos
      ensures Running() && Offered(b) && TookFrom(b, old(b.inPos), old(taken)) && (done || tempSize == 0)
      ensures Here() == old(View(taken - tempSize + rc.inPos, compressed - rc.inPos))
    {
      compressed := compressed - rc.inPos;
      done := rc.inPos < tempSize;
      if done {
        DropDecoded(tmp);
      } else {
        TakeBack(b);
      }
    }

    method DropDecoded(tmp: nat)
      requires Primed() && Parked() && rc.inPos < tempSize
      requires Agrees(temp[..], 0, tempSize + tmp, stream, taken - tempSize, SEAL)
      modifies temp, `tempSize
      ensures Primed() && Parked() && tempSize == old(tempSize) - rc.inPos
    {
      PrimedIs();
      ghost var t0, d := temp[..], taken - tempSize;
      AgreesIs(t0, 0, tempSize + tmp, stream, d);
      AgreesIs(t0, 0, tempSize, stream, d);
      tempSize := tempSize - rc.inPos;
      MoveDown(rc.inPos, tempSize);
      AgreesDropped(t0, rc.inPos, tempSize, stream, d, temp[..]);
    }

    method TakeBack(b: XzBuf)
      requires Parked() && Offered(b) && Apart(b) && tempSize <= rc.inPos && rc.inPos - tempSize <= b.inSize - b.inPos
      modifies `tempSize, `taken, b`inPos
      ensures Parked() && tempSize == 0 && Offered(b) && TookFrom(b, old(b.inPos), old(taken))
      ensures taken == old(taken - tempSize) + rc.inPos
    {
      AgreesIs(b.input[..], b.inPos, b.inSize, stream, taken);
      AgreesLater(b.input[..], b.inPos, b.inSize, stream, taken, rc.inPos - tempSize);
      AgreesIs(temp[..], 0, 0, stream, taken + (rc.inPos - tempSize));
      taken := taken + (rc.inPos - tempSize);
      b.inPos := b.inPos + (rc.inPos - tempSize);
      tempSize := 0;
    }

    // memmove to the beginning of the temporary buffer
    method MoveDown(k: nat, n: nat)
      requires k + n <= temp.Length
      modifies temp
      ensures temp[..n] == old(temp[..])[k..k + n]
    {
      forall i | 0 <= i < n {
        temp[i] := temp[k + i];
      }
    }

    /** The second part of lzma2_lzma: decodes from the caller's buffer as long as it has plenty. */
    method FromInput(b: XzBuf) returns (ok: bool, ghost k: nat)
      requires Running() && Apart(b) && Offered(b) && tempSize == 0 && b.inSize - b.inPos >= LZMA_IN_REQUIRED
      modifies rc`range, rc`code, rc`inPos, rc`inLimit, rc`input, lzma.probs
      modifies lzma`state, lzma`rep0, lzma`rep1, lzma`rep2, lzma`rep3, lzma`len
      modifies dict`pos, dict`full, dict`hist, dict.buf
      modifies `compressed, `taken, b`inPos
      ensures b.input[..] == old(b.input[..])
      ensures ok ==>
        && Running() && Offered(b) && TookFrom(b, old(b.inPos), old(taken)) && tempSize == 0
        && M.Path(dict.size, stream, old(Here()), k, Here(), SEAL)
        && dict.pos >= old(dict.pos) && (old(dict.pos < dict.limit) ==> dict.pos > old(dict.pos))
      ensures !ok ==> M.Fails(dict.size, stream, offered, old(Here()), k, SEAL)
      ensures old(b.inPos) <= b.inPos <= b.inSize
    {
      PrimedIs();
      ok, k := DecodeInput(b);
      if ok {
        Consume(b);
      }
    }

    /** Decodes from the caller's buffer, up to the end of the chunk or as far as is safe. */
    method DecodeInput(b: XzBuf) returns (ok: bool, ghost k: nat)
      requires Primed() && Apart(b) && Offered(b) && b.inSize - b.inPos >= LZMA_IN_REQUIRED
      modifies rc`range, rc`code, rc`inPos, rc`inLimit, rc`input, lzma.probs
      modifies lzma`state, lzma`rep0, lzma`rep1, lzma`rep2, lzma`rep3, lzma`len
      modifies dict`pos, dict`full, dict`hist, dict.buf
      ensures b.input[..] == old(b.input[..])
      ensures ok ==>
        && Primed() && b.inPos <= rc.inPos <= Min(b.inSize, b.inPos + compressed)
        && M.Path(dict.size, stream, old(View(taken, compressed)), k,
                  View(taken + (rc.inPos - b.inPos), compressed - (rc.inPos - b.inPos)), SEAL)
        && dict.pos >= old(dict.pos) && (old(dict.pos < dict.limit) ==> dict.pos > old(dict.pos))
      ensures !ok ==> M.Fails(dict.size, stream, offered, old(View(taken, compressed)), k, SEAL)
    {
      PrimedIs();
      var plenty := b.inSize - b.inPos >= compressed + LZMA_IN_REQUIRED;
      var lim := if plenty then b.inPos + compressed else b.inSize - LZMA_IN_REQUIRED;
      ghost var e := Min(b.inSize, b.inPos + compressed);
      AgreesIs(b.input[..], b.inPos, b.inSize, stream, taken);
      M.SameUpto(b.input[..], stream, b.inPos, e, taken - b.inPos, taken + compressed);
      ok, k := Decode(b.input, b.inPos, lim, e, taken);
      ok := ok && rc.inPos - b.inPos <= compressed;
    }

    method Consume(b: XzBuf)
      requires Primed() && Parked() && Offered(b) && tempSize == 0 && b.inPos <= rc.inPos <= Min(b.inSize, b.inPos + compressed)
      modifies `compressed, `taken, b`inPos
      ensures Running() && Offered(b) && TookFrom(b, old(b.inPos), old(taken)) && tempSize == 0
      ensures Here() == old(View(taken + (rc.inPos - b.inPos), compressed - (rc.inPos - b.inPos)))
    {
      AgreesIs(b.input[..], b.inPos, b.inSize, stream, taken);
      AgreesLater(b.input[..], b.inPos, b.inSize, stream, taken, rc.inPos - b.inPos);
      compressed := compressed - (rc.inPos - b.inPos);
      taken := taken + (rc.inPos - b.inPos);
      b.inPos := rc.inPos;
      AgreesIs(temp[..], 0, 0, stream, taken);
    }

    /** The third part of lzma2_lzma: what is too little to decode from directly is put aside. */
    method Stash(b: XzBuf)
      requires Running() && Apart(b) && Offered(b) && tempSize == 0 && b.inSize - b.inPos < LZMA_IN_REQUIRED
      modifies temp, `tempSize, `taken, b`inPos
      ensures Running() && Offered(b) && TookFrom(b, old(b.inPos), old(taken))
      ensures Here() == old(Here())
      ensures b.inPos > old(b.inPos) || tempSize == compressed == 0 || (b.inPos == b.inSize && tempSize < compressed)
    {
      PrimedIs();
      var inAvail := Min(b.inSize - b.inPos, compressed);
      AgreesIs(b.input[..], b.inPos, b.inSize, stream, taken);
      AgreesLater(b.input[..], b.inPos, b.inSize, stream, taken, inAvail);
      StashBytes(b, inAvail);
      tempSize := inAvail;
      taken := taken + inAvail;
      b.inPos := b.inPos + inAvail;
    }

    method StashBytes(b: XzBuf, n: nat)
      requires Wired() && Offered(b) && Apart(b) && n < LZMA_IN_REQUIRED && b.inPos + n <= b.inSize
      modifies temp
      ensures Agrees(temp[..], 0, n, stream, taken, SEAL)
    {
      ghost var t0, inp := temp[..], b.input[..];
      MemCopy(b.input, b.inPos, temp, 0, n);
      OverwriteIs(t0, 0, inp[b.inPos..b.inPos + n]);
      assert temp[..n] == t0[..0] + inp[b.inPos..b.inPos + n];
      AgreesIs(t0, 0, 0, stream, taken);
      AgreesIs(inp, b.inPos, b.inSize, stream, taken);
      AgreesJoin(t0, 0, inp, b.inPos, b.inSize, stream, taken, n, temp[..]);
    }

    // What every part of lzma2_lzma does: some steps of the machine, or a failure that it comes to as well.
    method Continue(b: XzBuf) returns (ok: bool, ghost k: nat)
      requires Running() && Apart(b) && Offered(b) && tempSize == 0
      modifies rc`range, rc`code, rc`inPos, rc`inLimit, rc`input, lzma.probs
      modifies lzma`state, lzma`rep0, lzma`rep1, lzma`rep2, lzma`rep3, lzma`len
      modifies dict`pos, dict`full, dict`hist, dict.buf
      modifies temp, `tempSize, `compressed, `taken, b`inPos
      ensures b.input[..] == old(b.input[..])
      ensures ok ==>
        && Running() && Offered(b) && TookFrom(b, old(b.inPos), old(taken)) && dict.pos >= old(dict.pos)
        && M.Path(dict.size, stream, old(Here()), k, Here(), SEAL)
        && (old(dict.pos < dict.limit && compressed > 0) ==>
             dict.pos > old(dict.pos) || b.inPos > old(b.inPos) || (b.inPos == b.inSize && tempSize < compressed))
      ensures !ok ==> M.Fails(dict.size, stream, offered, old(Here()), k, SEAL)
      ensures old(b.inPos) <= b.inPos <= b.inSize
    {
      if b.inSize - b.inPos >= LZMA_IN_REQUIRED {
        ok, k := FromInput(b);
        if ok {
          StashRest(b);
        }
      } else {
        PrimedOk(taken);
        M.PathStep(dict.size, stream, Here());
        ok, k := true, 0;
        StashRest(b);
      }
    }

    method StashRest(b: XzBuf)
      requires Running() && Apart(b) && Offered(b) && tempSize == 0
      modifies temp, `tempSize, `taken, b`inPos
      ensures Running() && Offered(b) && TookFrom(b, old(b.inPos), old(taken)) && Here() == old(Here())
      ensures old(b.inSize - b.inPos < LZMA_IN_REQUIRED) ==>
        b.inPos > old(b.inPos) || tempSize == compressed == 0 || (b.inPos == b.inSize && tempSize < compressed)
      ensures b.input[..] == old(b.input[..])
    {
      if b.inSize - b.inPos < LZMA_IN_REQUIRED {
        Stash(b);
      }
    }

    /** lzma2_lzma. However the input is cut, what it does is some steps of the machine. It makes progress
        unless the dictionary limit is reached or all input is used up. */
    method Lzma(b: XzBuf) returns (ok: bool, ghost k: nat)
      requires Running() && Apart(b) && Offered(b)
      modifies rc`range, rc`code, rc`inPos, rc`inLimit, rc`input, lzma.probs
      modifies lzma`state, lzma`rep0, lzma`rep1, lzma`rep2, lzma`rep3, lzma`len
      modifies dict`pos, dict`full, dict`hist, dict.buf
      modifies temp, `tempSize, `compressed, `taken, b`inPos
      ensures b.input[..] == old(b.input[..])
      ensures ok ==>
        && Running() && Offered(b) && TookFrom(b, old(b.inPos), old(taken))
        && M.Path(dict.size, stream, old(Here()), k, Here(), SEAL)
        && (old(dict.pos < dict.limit) ==>
             dict.pos > old(dict.pos) || b.inPos > old(b.inPos) || (b.inPos == b.inSize && tempSize < compressed))
      ensures !ok ==> M.Fails(dict.size, stream, offered, old(Here()), k, SEAL)
      ensures old(b.inPos) <= b.inPos <= b.inSize
    {
      if tempSize > 0 || compressed == 0 {
        var done;
        ok, done, k := FromTemp(b);
        if ok && !done {
          ok, k := ContinueAfter(b, old(Here()), k);
        }
      } else {
        ok, k := Continue(b);
      }
    }

    // `j` steps after `s`
    method ContinueAfter(b: XzBuf, ghost s: M.Lzma2, ghost j: nat) returns (ok: bool, ghost k: nat)
      requires Running() && Apart(b) && Offered(b) && tempSize == 0 && M.Path(dict.size, stream, s, j, Here(), SEAL)
      modifies rc`range, rc`code, rc`inPos, rc`inLimit, rc`input, lzma.probs
      modifies lzma`state, lzma`rep0, lzma`rep1, lzma`rep2, lzma`rep3, lzma`len
      modifies dict`pos, dict`full, dict`hist, dict.buf
      modifies temp, `tempSize, `compressed, `taken, b`inPos
      ensures b.input[..] == old(b.input[..])
      ensures ok ==>
        && Running() && Offered(b) && TookFrom(b, old(b.inPos), old(taken)) && dict.pos >= old(dict.pos)
        && M.Path(dict.size, stream, s, k, Here(), SEAL)
      ensures !ok ==> M.Fails(dict.size, stream, offered, s, k, SEAL)
      ensures old(b.inPos) <= b.inPos <= b.inSize
    {
      ghost var r := Here();
      ok, k := Continue(b);
      if ok {
        M.PathThen(dict.size, stream, s, j, r, k, Here());
      } else {
        M.FailsThen(dict.size, stream, offered, s, j, r, k);
      }
      k := j + k;
    }

    // ---- the chunk layer

    ghost function NextPlace(): M.Next
      reads `nextSequence
    {
      if nextSequence.SeqProperties? then M.ToProperties
      else if nextSequence.SeqLzmaPrepare? then M.ToPrepare
      else M.ToCopy
    }

    ghost function Where(): M.Place
      reads `sequence, `nextSequence, `uncompressed, `compressed, rc`initBytesLeft
    {
      var u := if nextSequence.SeqCopy? then 0 else uncompressed;
      match sequence
      case SeqControl => M.Control
      case SeqUncompressed1 => M.Uncompressed1(uncompressed, NextPlace())
      case SeqUncompressed2 => M.Uncompressed2(uncompressed, NextPlace())
      case SeqCompressed0 => M.Compressed0(u, NextPlace())
      case SeqCompressed1 => M.Compressed1(u, compressed, NextPlace())
      case SeqProperties => M.Properties(uncompressed, compressed)
      case SeqLzmaPrepare =>
        if rc.initBytesLeft == 0 && compressed >= 5 then M.LzmaRun(uncompressed, compressed - 5)
        else M.Prepare(uncompressed, compressed, rc.initBytesLeft)
      case SeqLzmaRun => M.LzmaRun(uncompressed, compressed)
      case SeqCopy => M.Copy(compressed)
    }

    ghost predicate IsLive()
      reads `sequence, `nextSequence, `uncompressed, `compressed, `needDictReset, `needProps, rc`initBytesLeft
    {
      !needDictReset && !needProps && !M.AwaitsProperties(Where())
    }

    ghost function NeedNow(): M.Need
      reads `needDictReset, `needProps
    {
      if needDictReset then M.DictReset else if needProps then M.NewProperties else M.Nothing
    }

    ghost function Hist(): seq<byte>
      reads `needDictReset, dict`hist
    {
      if needDictReset then [] else dict.hist
    }

    /** The decoder as a state of the machine. What it holds of LZMA state counts only while it is live. */
    ghost function Raw(): M.Lzma2
      reads `sequence, `nextSequence, `uncompressed, `compressed, `needDictReset, `needProps, `before, `tempSize, `taken
      reads lzma, rc`range, rc`code, lzma.probs, rc`initBytesLeft
      reads dict`hist, dict`pos, dict`start
    {
      if sequence.SeqLzmaRun? then Here()
      else if IsLive() then
        M.Lzma2(Where(), NeedNow(), lzma.Properties(),
                Machine(Dec(rc.range, rc.code, lzma.probs[..], taken), lzma.Lz(), Hist()), before)
      else M.Lzma2(Where(), NeedNow(), M.NoProps(), M.Blank(taken, Hist()), before)
    }

    ghost predicate Settled()
      reads dict`start, dict`pos, dict`full, dict`end, dict`size, dict`hist, dict`laps, dict`units, dict.buf
    {
      dict.SizeOk() && dict.start == dict.pos < dict.end && RingOk(dict, SEAL)
    }

    ghost predicate HeaderOk()
      reads `sequence, `nextSequence, `uncompressed, `compressed, `tempSize
    {
      && (sequence.SeqUncompressed1? || sequence.SeqUncompressed2? ==> nextSequence.SeqProperties? || nextSequence.SeqLzmaPrepare?)
      && (sequence.SeqCompressed0? || sequence.SeqCompressed1? ==>
            nextSequence.SeqProperties? || nextSequence.SeqLzmaPrepare? || nextSequence.SeqCopy?)
      && (sequence.SeqLzmaRun? ==> uncompressed > 0 && tempSize <= compressed)
      && (sequence.SeqLzmaPrepare? || sequence.SeqProperties? ==> uncompressed > 0)
      && (sequence.SeqCompressed0? || sequence.SeqCompressed1? ==> uncompressed > 0 || nextSequence.SeqCopy?)
      && (sequence.SeqCopy? ==> compressed > 0)
    }

    ghost predicate Parts()
      reads `sequence, `nextSequence, `uncompressed, `compressed, `needDictReset, `needProps, `before, `emitted, `tempSize, `taken, `stream
      reads lzma, rc`range, rc`code, lzma.probs, rc`initBytesLeft, dict.buf, temp
      reads dict`start, dict`pos, dict`full, dict`end, dict`size, dict`hist, dict`laps, dict`units
    {
      && Wired() && lzma.probs.Length == PROBS_TOTAL && dict.SizeOk() && Parked() && HeaderOk()
      && emitted == before + Hist()
      && (tempSize > 0 ==> sequence.SeqLzmaRun?) && (lzma.len > 0 ==> sequence.SeqLzmaRun?)
      && (needDictReset ==> sequence.SeqControl?)
      && (!needDictReset ==> Settled())
      && (M.AwaitsProperties(Where()) ==> !needDictReset && !needProps)
      && (M.InLzma(Where()) ==> IsLive())
      && (IsLive() ==> Sound(lzma, SEAL) && TOP <= rc.range && InitOk())
    }

    ghost predicate InitOk()
      reads `sequence, `compressed, rc`initBytesLeft
    {
      if sequence.SeqLzmaPrepare? then rc.initBytesLeft <= 5 && (rc.initBytesLeft == 0 ==> compressed >= 5)
      else sequence.SeqLzmaRun? || rc.initBytesLeft == 5
    }

    // Parts and Raw under names that proofs do not unfold.
    ghost predicate Good()
      reads `sequence, `nextSequence, `uncompressed, `compressed, `needDictReset, `needProps, `before, `emitted, `tempSize, `taken, `stream
      reads lzma, rc`range, rc`code, lzma.probs, rc`initBytesLeft, dict.buf, temp
      reads dict`start, dict`pos, dict`full, dict`end, dict`size, dict`hist, dict`laps, dict`units
    {
      Sealed(this, SEAL)
    }

    ghost function Abs(): M.Lzma2
      reads `sequence, `nextSequence, `uncompressed, `compressed, `needDictReset, `needProps, `before, `tempSize, `taken
      reads lzma, rc`range, rc`code, lzma.probs, rc`initBytesLeft
      reads dict`hist, dict`pos, dict`start
    {
      StateOf(this, SEAL)
    }

    lemma Unfold()
      ensures Good() <==> Parts()
      ensures Abs() == Raw()
    {
      assert Sealed(this, 3) == Sealed(this, 2);
      assert Sealed(this, 2) == Sealed(this, 1);
      assert Sealed(this, 1) == Sealed(this, 0);
      assert StateOf(this, 3) == StateOf(this, 2);
      assert StateOf(this, 2) == StateOf(this, 1);
      assert StateOf(this, 1) == StateOf(this, 0);
    }

    // a chunk header is being read
    ghost predicate InHeader()
      reads `sequence
    {
      sequence.SeqUncompressed1? || sequence.SeqUncompressed2? || sequence.SeqCompressed0? || sequence.SeqCompressed1?
    }

    /** SEQ_UNCOMPRESSED_1 to SEQ_COMPRESSED_1: the sizes in a chunk header. */
    method SizeByte(b: byte)
      requires InHeader() && HeaderOk() && (M.InLzma(Where()) ==> rc.initBytesLeft == 5)
      modifies `uncompressed, `compressed, `sequence
      ensures Where() == M.SizeByte(old(Where()), b) && HeaderOk()
      ensures M.AwaitsProperties(Where()) == old(M.AwaitsProperties(Where())) && M.InLzma(Where()) == old(M.InLzma(Where()))
      ensures !sequence.SeqLzmaRun? && !sequence.SeqControl?
    {
      if sequence.SeqUncompressed1? {
        uncompressed := uncompressed + b * 256;
        sequence := SeqUncompressed2;
      } else if sequence.SeqUncompressed2? {
        uncompressed := uncompressed + b + 1;
        sequence := SeqCompressed0;
      } else if sequence.SeqCompressed0? {
        compressed := b * 256;
        sequence := SeqCompressed1;
      } else {
        compressed := compressed + b + 1;
        sequence := nextSequence;
      }
    }

    method HeaderByte(b: byte)
      requires Good() && InHeader() && taken < |stream|
      modifies `uncompressed, `compressed, `sequence, `taken
      ensures Good() && Abs() == M.ByteStep(old(Abs()), b) && taken == old(taken) + 1
    {
      Glimpse();
      Take();
      AdvanceHeader(b);
    }

    method AdvanceHeader(b: byte)
      requires Good() && InHeader()
      modifies `uncompressed, `compressed, `sequence
      ensures Good() && old(Abs()).place == old(Where()) && Abs() == old(Abs()).(place := M.SizeByte(old(Where()), b))
    {
      Unfold();
      SizeByte(b);
      Unfold();
    }

    /** What can be told of the state without unfolding all of it. */
    lemma Glimpse()
      requires Good()
      ensures Abs().need == NeedNow() && Abs().place == (if sequence.SeqLzmaRun? then Here().place else Where())
      ensures !sequence.SeqLzmaRun? ==> Abs().m.d.pos == taken && M.Produced(Abs()) == emitted
      ensures tempSize <= taken <= |stream|
    {
      Unfold();
    }

    // The next byte is taken from the caller.
    ghost method Take()
      requires Good() && !sequence.SeqLzmaRun? && taken < |stream|
      modifies `taken
      ensures Good() && taken == old(taken) + 1 && Abs() == old(Abs()).(m := M.Read1(old(Abs()).m))
    {
      Unfold();
      taken := taken + 1;
      AgreesIs(temp[..], 0, 0, stream, taken);
      Unfold();
    }

    /** A dictionary reset. */
    method StartOver()
      requires Good() && sequence.SeqControl?
      modifies `needProps, `needDictReset, `before, dict`start, dict`pos, dict`full, dict`limit, dict`hist, dict`laps
      ensures Good() && needProps && !needDictReset
      ensures Abs() == M.StartOver(old(Abs())) && emitted == old(emitted)
    {
      Unfold();
      before := before + Hist();
      needProps := true;
      needDictReset := false;
      dict.Reset();
      RingOkIs(dict);
      Unfold();
    }

    /** The header of an LZMA chunk that brings new properties. */
    method NewPropertiesChunk(b: byte)
      requires Good() && sequence.SeqControl? && !needDictReset && 0xC0 <= b
      modifies `needProps, `uncompressed, `sequence, `nextSequence
      ensures Good() && Hist() == old(Hist())
      ensures var s := old(Abs());
        Abs() == M.Lzma2(M.Uncompressed1(b % 32 * 65536, M.ToProperties), M.Nothing, M.NoProps(), M.Blank(s.m.d.pos, s.m.hist), s.before)
    {
      Unfold();
      uncompressed := b % 32 * 65536;
      sequence := SeqUncompressed1;
      needProps := false;
      nextSequence := SeqProperties;
      Unfold();
    }

    /** The header of an LZMA chunk that goes on with the old properties, perhaps with a state reset. */
    method OldPropertiesChunk(b: byte)
      requires Good() && sequence.SeqControl? && !needDictReset && !needProps && 0x80 <= b < 0xC0
      modifies `uncompressed, `sequence, `nextSequence
      modifies lzma`state, lzma`rep0, lzma`rep1, lzma`rep2, lzma`rep3, lzma.probs, rc`range, rc`code, rc`initBytesLeft
      ensures Good() && Hist() == old(Hist())
      ensures var s := old(Abs());
        Abs() == s.(place := M.Uncompressed1(b % 32 * 65536, M.ToPrepare), m := if b >= 0xA0 then M.LzmaReset(s.m) else s.m)
    {
      LzmaChunkHeader(b);
      if b >= 0xA0 {
        StateReset();
      }
    }

    method LzmaChunkHeader(b: byte)
      requires Good() && sequence.SeqControl? && !needDictReset && !needProps && 0x80 <= b < 0xC0
      modifies `uncompressed, `sequence, `nextSequence
      ensures Good() && IsLive() && sequence.SeqUncompressed1?
      ensures Abs() == old(Abs()).(place := M.Uncompressed1(b % 32 * 65536, M.ToPrepare))
    {
      Unfold();
      uncompressed := b % 32 * 65536;
      sequence := SeqUncompressed1;
      nextSequence := SeqLzmaPrepare;
      Unfold();
    }

    /** lzma_reset */
    method StateReset()
      requires Good() && IsLive() && sequence.SeqUncompressed1?
      modifies lzma`state, lzma`rep0, lzma`rep1, lzma`rep2, lzma`rep3, lzma.probs, rc`range, rc`code, rc`initBytesLeft
      ensures Good() && Abs() == old(Abs()).(m := M.LzmaReset(old(Abs()).m))
    {
      Unfold();
      lzma.SoundIs();
      lzma.Reset();
      lzma.SoundIs();
      Unfold();
    }

    method CopyChunkHeader()
      requires Good() && sequence.SeqControl? && !needDictReset
      modifies `sequence, `nextSequence
      ensures Good() && Hist() == old(Hist())
      ensures Abs() == old(Abs()).(place := M.Compressed0(0, M.ToCopy))
    {
      Unfold();
      sequence := SeqCompressed0;
      nextSequence := SeqCopy;
      Unfold();
    }

    /** SEQ_CONTROL */
    method ControlByte(b: byte) returns (v: Verdict)
      requires Good() && sequence.SeqControl? && taken < |stream| && stream[taken] == b
      modifies `taken, `needProps, `needDictReset, `uncompressed, `sequence, `nextSequence, `before
      modifies dict`start, dict`pos, dict`full, dict`limit, dict`hist, dict`laps
      modifies lzma`state, lzma`rep0, lzma`rep1, lzma`rep2, lzma`rep3, lzma.probs, rc`range, rc`code, rc`initBytesLeft
      ensures taken == old(taken) + 1 && !v.Waiting?
      ensures v.Going? ==> Good() && Abs() == M.ControlByte(old(Abs()), b) && emitted == old(emitted)
      ensures v.AtEnd? ==> b == 0
      ensures v.Bad? ==> M.ControlByte(old(Abs()), b).place.Failed?
    {
      Glimpse();
      Take();
      if b == 0x00 {
        return AtEnd;
      }
      if b >= 0xE0 || b == 0x01 {
        StartOver();
      } else if needDictReset {
        return Bad;
      }
      v := ChunkHeader(b);
    }

    /** The rest of what a control byte says. */
    method ChunkHeader(b: byte) returns (v: Verdict)
      requires Good() && sequence.SeqControl? && !needDictReset
      modifies `needProps, `uncompressed, `sequence, `nextSequence
      modifies lzma`state, lzma`rep0, lzma`rep1, lzma`rep2, lzma`rep3, lzma.probs, rc`range, rc`code, rc`initBytesLeft
      ensures v.Going? || v.Bad?
      ensures v.Going? ==> Good() && Abs() == M.ChunkHeader(old(Abs()), b) && Hist() == old(Hist())
      ensures v.Bad? ==> M.ChunkHeader(old(Abs()), b).place.Failed?
    {
      Glimpse();
      v := Going;
      if b >= 0x80 {
        if b >= 0xC0 {
          NewPropertiesChunk(b);
        } else if needProps {
          return Bad;
        } else {
          OldPropertiesChunk(b);
        }
      } else {
        if b > 0x02 {
          return Bad;
        }
        CopyChunkHeader();
      }
    }

    /** SEQ_PROPERTIES */
    method PropertyByte(b: byte) returns (v: Verdict)
      requires Good() && sequence.SeqProperties? && taken < |stream| && stream[taken] == b
      modifies `taken, `sequence, lzma, lzma.probs, rc`range, rc`code, rc`initBytesLeft
      ensures taken == old(taken) + 1 && (v.Going? || v.Bad?)
      ensures v.Going? ==> Good() && sequence.SeqLzmaPrepare? && Abs() == M.ByteStep(old(Abs()), b) && emitted == old(emitted)
      ensures v.Bad? ==> M.ByteStep(old(Abs()), b).place.Failed?
    {
      Glimpse();
      Take();
      v := NewProperties(b);
    }

    method NewProperties(b: byte) returns (v: Verdict)
      requires Good() && sequence.SeqProperties?
      modifies `sequence, lzma`lc, lzma`literalPosMask, lzma`posMask, lzma`lp, lzma`pb
      modifies lzma`state, lzma`rep0, lzma`rep1, lzma`rep2, lzma`rep3, lzma.probs, rc`range, rc`code, rc`initBytesLeft
      ensures v == if PropsByteOk(b) then Going else Bad
      ensures v.Going? ==> Good() && sequence.SeqLzmaPrepare?
      ensures var s := old(Abs());
        && s.place == M.Properties(uncompressed, compressed)
        && (v.Going? ==> Abs() == s.(place := M.Prepare(uncompressed, compressed, 5), props := PropsOf(b), m := M.LzmaReset(s.m)))
    {
      Unfold();
      v := Bad;
      var ok := lzma.SetProps(b);
      if ok {
        sequence := SeqLzmaPrepare;
        v := Going;
        lzma.SoundIs();
        Unfold();
      }
    }

    // The decoder is where the machine comes to, from the start of the stream.
    ghost predicate OnPath()
      reads `sequence, `nextSequence, `uncompressed, `compressed, `needDictReset, `needProps, `before, `tempSize, `taken, `stream, `steps
      reads lzma, rc`range, rc`code, lzma.probs, rc`initBytesLeft
      reads dict`hist, dict`pos, dict`start, dict`size
    {
      M.Path(dict.size, stream, M.Start(), steps, Abs(), SEAL)
    }

    ghost predicate Valid()
      reads this, lzma, rc`range, rc`code, rc`initBytesLeft, lzma.probs, dict.buf, temp
      reads dict`start, dict`pos, dict`full, dict`end, dict`size, dict`hist, dict`laps, dict`units
    {
      Good() && OnPath()
    }

    // The next byte of the caller's buffer, which is the next one of the stream.
    method NextByte(b: XzBuf) returns (c: byte)
      requires Offered(b) && Apart(b) && b.inPos < b.inSize
      modifies b`inPos
      ensures b.inPos == old(b.inPos) + 1 && taken < offered <= |stream| && c == stream[taken]
      ensures Agrees(b.input[..], b.inPos, b.inSize, stream, taken + 1, SEAL)
    {
      AgreesIs(b.input[..], b.inPos, b.inSize, stream, taken);
      AgreesLater(b.input[..], b.inPos, b.inSize, stream, taken, 1);
      c := b.input[b.inPos];
      b.inPos := b.inPos + 1;
    }

    method HandleControl(b: XzBuf) returns (v: Verdict)
      requires Valid() && Offered(b) && Apart(b) && b.inPos < b.inSize && sequence.SeqControl?
      modifies this, lzma, rc`range, rc`code, rc`initBytesLeft, lzma.probs, b`inPos
      modifies dict`start, dict`pos, dict`full, dict`limit, dict`hist, dict`laps
      ensures b.inPos == old(b.inPos) + 1 && taken == old(taken) + 1 && stream == old(stream) && offered == old(offered) && !v.Waiting?
      ensures v.Going? ==> Valid() && Offered(b) && emitted == old(emitted)
      ensures v.AtEnd? ==> M.Ends(dict.size, stream, M.Start(), steps, old(emitted), taken)
      ensures v.Bad? ==> M.FailsWith(dict.size, stream, offered, M.Start(), steps, old(emitted), SEAL)
    {
      var c := NextByte(b);
      v := StepControl(c);
    }

    // The control byte takes the machine one step further.
    method StepControl(c: byte) returns (v: Verdict)
      requires Valid() && sequence.SeqControl? && taken < offered <= |stream| && stream[taken] == c
      modifies this, lzma, rc`range, rc`code, rc`initBytesLeft, lzma.probs
      modifies dict`start, dict`pos, dict`full, dict`limit, dict`hist, dict`laps
      ensures taken == old(taken) + 1 && stream == old(stream) && offered == old(offered) && !v.Waiting?
      ensures v.Going? ==> Valid() && emitted == old(emitted)
      ensures v.AtEnd? ==> M.Ends(dict.size, stream, M.Start(), steps, old(emitted), taken)
      ensures v.Bad? ==> M.FailsWith(dict.size, stream, offered, M.Start(), steps, old(emitted), SEAL)
    {
      Glimpse();
      M.PathControl(dict.size, stream, offered, M.Start(), steps, Abs(), c);
      steps := steps + 1;
      v := ControlByte(c);
    }

    method HandleHeader(b: XzBuf)
      requires Valid() && Offered(b) && Apart(b) && b.inPos < b.inSize && InHeader()
      modifies this, b`inPos
      ensures b.inPos == old(b.inPos) + 1 && taken == old(taken) + 1 && stream == old(stream) && offered == old(offered)
      ensures Valid() && Offered(b) && emitted == old(emitted)
    {
      var c := NextByte(b);
      StepHeader(c);
    }

    method StepHeader(c: byte)
      requires Valid() && InHeader() && taken < |stream| && stream[taken] == c
      modifies this
      ensures taken == old(taken) + 1 && stream == old(stream) && offered == old(offered) && Valid() && emitted == old(emitted)
    {
      Glimpse();
      M.PathByte(dict.size, stream, |stream|, M.Start(), steps, Abs());
      steps := steps + 1;
      HeaderByte(c);
    }

    method HandleProperties(b: XzBuf) returns (v: Verdict)
      requires Valid() && Offered(b) && Apart(b) && b.inPos < b.inSize && sequence.SeqProperties?
      modifies this, lzma, rc`range, rc`code, rc`initBytesLeft, lzma.probs, b`inPos
      ensures b.inPos == old(b.inPos) + 1 && taken == old(taken) + 1 && stream == old(stream) && offered == old(offered) && (v.Going? || v.Bad?)
      ensures v.Going? ==> Valid() && Offered(b) && emitted == old(emitted) && sequence.SeqLzmaPrepare?
      ensures v.Bad? ==> M.FailsWith(dict.size, stream, offered, M.Start(), steps, old(emitted), SEAL)
    {
      var c := NextByte(b);
      v := StepProperties(c);
    }

    method StepProperties(c: byte) returns (v: Verdict)
      requires Valid() && sequence.SeqProperties? && taken < offered <= |stream| && stream[taken] == c
      modifies this, lzma, rc`range, rc`code, rc`initBytesLeft, lzma.probs
      ensures taken == old(taken) + 1 && stream == old(stream) && offered == old(offered) && (v.Going? || v.Bad?)
      ensures v.Going? ==> Valid() && emitted == old(emitted) && sequence.SeqLzmaPrepare?
      ensures v.Bad? ==> M.FailsWith(dict.size, stream, offered, M.Start(), steps, old(emitted), SEAL)
    {
      Glimpse();
      M.PathByte(dict.size, stream, offered, M.Start(), steps, Abs());
      steps := steps + 1;
      v := PropertyByte(c);
    }

    /** SEQ_LZMA_PREPARE with rc_read_init */
    method HandlePrepare(b: XzBuf) returns (v: Verdict)
      requires Valid() && Offered(b) && Apart(b) && sequence.SeqLzmaPrepare?
      modifies this, rc`code, rc`initBytesLeft, b`inPos
      ensures old(b.inPos) <= b.inPos <= b.inSize && taken - old(taken) == b.inPos - old(b.inPos) && stream == old(stream) && offered == old(offered)
      ensures !v.AtEnd? && !v.Bad? ==> Valid() && Offered(b) && emitted == old(emitted)
      ensures v.Going? ==> sequence.SeqLzmaRun?
      ensures v.Waiting? ==> b.inPos == b.inSize
      ensures v.Bad? ==> M.FailsWith(dict.size, stream, offered, M.Start(), steps, old(emitted), SEAL) && b.inPos == old(b.inPos)
      ensures !v.AtEnd?
    {
      if compressed < 5 {
        TooShort();
        steps := steps + 1;
        return Bad;
      }
      while rc.initBytesLeft > 0
        invariant Valid() && Offered(b) && sequence.SeqLzmaPrepare? && compressed >= 5
        invariant emitted == old(emitted) && stream == old(stream) && offered == old(offered)
        invariant old(b.inPos) <= b.inPos <= b.inSize && taken - old(taken) == b.inPos - old(b.inPos)
      {
        if b.inPos == b.inSize {
          return Waiting;
        }
        var c := NextByte(b);
        StepInit(c);
      }
      ChunkBegins();
      v := Going;
    }

    lemma TooShort()
      requires Valid() && sequence.SeqLzmaPrepare? && compressed < 5 && taken <= offered <= |stream|
      ensures M.FailsWith(dict.size, stream, offered, M.Start(), steps + 1, emitted, SEAL)
    {
      Glimpse();
      M.PathUnprompted(dict.size, stream, offered, M.Start(), steps, Abs());
    }

    method StepInit(c: byte)
      requires Valid() && sequence.SeqLzmaPrepare? && compressed >= 5 && rc.initBytesLeft > 0
      requires taken < |stream| && stream[taken] == c
      modifies `steps, `taken, rc`code, rc`initBytesLeft
      ensures taken == old(taken) + 1 && Valid() && rc.initBytesLeft == old(rc.initBytesLeft) - 1
    {
      Glimpse();
      M.PathByte(dict.size, stream, |stream|, M.Start(), steps, Abs());
      steps := steps + 1;
      InitByte(c);
    }

    /** One round of rc_read_init. */
    method InitByte(c: byte)
      requires Good() && sequence.SeqLzmaPrepare? && compressed >= 5 && rc.initBytesLeft > 0 && taken < |stream|
      modifies `taken, rc`code, rc`initBytesLeft
      ensures Good() && old(Abs()).place == M.Prepare(uncompressed, compressed, old(rc.initBytesLeft))
      ensures Abs() == M.InitByte(old(Abs()), c)
      ensures taken == old(taken) + 1 && rc.initBytesLeft == old(rc.initBytesLeft) - 1
    {
      Glimpse();
      Take();
      ShiftIn(c);
    }

    method ShiftIn(c: byte)
      requires Good() && sequence.SeqLzmaPrepare? && compressed >= 5 && rc.initBytesLeft > 0
      modifies rc`code, rc`initBytesLeft
      ensures rc.initBytesLeft == old(rc.initBytesLeft) - 1 && Good()
      ensures var p, s := Where(), old(Abs());
        && p == (if rc.initBytesLeft == 0 then M.LzmaRun(uncompressed, compressed - 5)
                 else M.Prepare(uncompressed, compressed, rc.initBytesLeft))
        && Abs() == s.(place := p, m := s.m.(d := s.m.d.(code := (s.m.d.code * 256 + c) % TWO32)))
    {
      Unfold();
      lzma.SoundIs();
      rc.code := (rc.code * 256 + c) % TWO32;
      rc.initBytesLeft := rc.initBytesLeft - 1;
      lzma.SoundIs();
      Unfold();
    }

    method ChunkBegins()
      requires Good() && sequence.SeqLzmaPrepare? && compressed >= 5 && rc.initBytesLeft == 0
      modifies `compressed, `sequence
      ensures Good() && sequence.SeqLzmaRun? && Abs() == old(Abs())
    {
      Unfold();
      compressed := compressed - 5;
      sequence := SeqLzmaRun;
      Unfold();
    }

    /** SEQ_COPY */
    method HandleCopy(b: XzBuf) returns (v: Verdict)
      requires Valid() && Offered(b) && Apart(b) && sequence.SeqCopy?
      modifies `compressed, `sequence, `taken, `emitted, `steps
      modifies dict`start, dict`pos, dict`full, dict`hist, dict`laps, dict.buf, b`inPos, b`outPos, b.output
      ensures old(b.inPos) <= b.inPos <= b.inSize && old(taken) <= taken <= |stream| && taken - old(taken) == b.inPos - old(b.inPos)
      ensures Valid() && Offered(b) && emitted == old(emitted) + stream[old(taken)..taken] && b.input[..] == old(b.input[..])
      ensures b.outPos == old(b.outPos) + (taken - old(taken)) <= b.outSize
      ensures b.output[..] == Overwrite(old(b.output[..]), old(b.outPos), stream[old(taken)..taken])
      ensures if v.Going? then b.inPos > old(b.inPos) && sequence.SeqControl?
        else v.Waiting? && (b.inPos == b.inSize || b.outPos == b.outSize)
    {
      ghost var s := Abs();
      ghost var valid := M.Path(dict.size, stream, M.Start(), steps, s, SEAL);
      var n := CopyOut(b);
      M.PathCopy(dict.size, stream, M.Start(), steps, s, n);
      steps := steps + n;
      v := if compressed > 0 then Waiting else Going;
    }

    method CopyOut(b: XzBuf) returns (n: nat)
      requires Good() && Offered(b) && Apart(b) && sequence.SeqCopy?
      modifies `compressed, `sequence, `taken, `emitted
      modifies dict`start, dict`pos, dict`full, dict`hist, dict`laps, dict.buf, b`inPos, b`outPos, b.output
      ensures Good() && 0 < old(compressed) == compressed + n && taken == old(taken) + n <= |stream|
      ensures old(Abs()).place == M.Copy(old(compressed)) && old(Abs()).m.d.pos == old(taken)
      ensures Abs() == M.CopyBytes(old(Abs()), stream, n) && emitted == old(emitted) + stream[old(taken)..taken]
      ensures b.inPos == old(b.inPos) + n <= b.inSize && Offered(b) && b.input[..] == old(b.input[..])
      ensures b.outPos == old(b.outPos) + n <= b.outSize
      ensures b.output[..] == Overwrite(old(b.output[..]), old(b.outPos), stream[old(taken)..taken])
      ensures if compressed > 0 then sequence.SeqCopy? && (b.inPos == b.inSize || b.outPos == b.outSize) else sequence.SeqControl?
    {
      Unfold();
      ghost var s, h0 := Abs(), dict.hist;
      n := Transfer(b, IsLive());
      Account(n, s, h0);
    }

    // The bookkeeping after dict_uncompressed has moved `n` bytes.
    method Account(n: nat, ghost s: M.Lzma2, ghost h0: seq<byte>)
      requires Wired() && lzma.probs.Length == PROBS_TOTAL && Settled() && Parked() && tempSize == 0 && lzma.len == 0
      requires sequence.SeqCopy? && n <= compressed && 0 < compressed && !needDictReset
      requires IsLive() ==> Sound(lzma, SEAL) && TOP <= rc.range && rc.initBytesLeft == 5
      requires taken + n <= |stream| && dict.hist == h0 + stream[taken..taken + n] && emitted == before + h0
      requires s == M.Lzma2(M.Copy(compressed), NeedNow(), if IsLive() then lzma.Properties() else M.NoProps(),
                            if IsLive() then Machine(Dec(rc.range, rc.code, lzma.probs[..], taken), lzma.Lz(), h0)
                            else M.Blank(taken, h0), before)
      modifies `compressed, `sequence, `taken, `emitted
      ensures Good() && compressed == old(compressed) - n && taken == old(taken) + n && Abs() == M.CopyBytes(s, stream, n)
      ensures emitted == old(emitted) + stream[old(taken)..taken]
      ensures sequence == if compressed > 0 then SeqCopy else SeqControl
    {
      AgreesIs(temp[..], 0, 0, stream, taken + n);
      assert before + (h0 + stream[taken..taken + n]) == before + h0 + stream[taken..taken + n];
      emitted := emitted + stream[taken..taken + n];
      taken := taken + n;
      compressed := compressed - n;
      sequence := if compressed > 0 then SeqCopy else SeqControl;
      CopiedState(n, s, h0);
    }

    // after a part of an uncompressed chunk
    lemma CopiedState(n: nat, s: M.Lzma2, h0: seq<byte>)
      requires Wired() && lzma.probs.Length == PROBS_TOTAL && Settled() && Parked() && tempSize == 0 && lzma.len == 0
      requires sequence == (if compressed > 0 then SeqCopy else SeqControl) && 0 < compressed + n && !needDictReset && n <= taken
      requires !needProps ==> Sound(lzma, SEAL) && TOP <= rc.range && rc.initBytesLeft == 5
      requires taken <= |stream| && dict.hist == h0 + stream[taken - n..taken] && emitted == before + dict.hist
      requires s == M.Lzma2(M.Copy(compressed + n), NeedNow(), if !needProps then lzma.Properties() else M.NoProps(),
                            if !needProps then Machine(Dec(rc.range, rc.code, lzma.probs[..], taken - n), lzma.Lz(), h0)
                            else M.Blank(taken - n, h0), before)
      ensures Good() && Abs() == M.CopyBytes(s, stream, n)
    {
      Unfold();
    }

    // dict_uncompressed, seen from the stream
    method Transfer(b: XzBuf, ghost live: bool) returns (n: nat)
      requires Settled() && Offered(b) && Apart(b) && Wired() && (live ==> Sound(lzma, SEAL)) && lzma.len == 0
      modifies dict`start, dict`pos, dict`full, dict`hist, dict`laps, dict.buf, b`inPos, b`outPos, b.output
      ensures Settled() && (live ==> Sound(lzma, SEAL)) && n <= compressed && taken + n <= |stream|
      ensures dict.hist == old(dict.hist) + stream[taken..taken + n]
      ensures b.inPos == old(b.inPos) + n <= b.inSize && b.input[..] == old(b.input[..])
      ensures Agrees(b.input[..], b.inPos, b.inSize, stream, taken + n, SEAL)
      ensures b.outPos == old(b.outPos) + n <= b.outSize
      ensures b.output[..] == Overwrite(old(b.output[..]), old(b.outPos), stream[taken..taken + n])
      ensures n < compressed ==> b.inPos == b.inSize || b.outPos == b.outSize
    {
      lzma.SoundIs();
      RingOkIs(dict);
      ghost var inp := b.input[..];
      AgreesIs(inp, b.inPos, b.inSize, stream, taken);
      var rest := dict.Uncompressed(b, compressed);
      n := compressed - rest;
      assert inp[old(b.inPos)..b.inPos] == stream[taken..taken + n];
      AgreesLater(inp, old(b.inPos), b.inSize, stream, taken, n);
      lzma.SoundIs();
      RingOkIs(dict);
    }

    // A chunk of compressed data is under way, and all decoded bytes are flushed.
    ghost predicate Between()
      reads `sequence, `uncompressed, `compressed, `needDictReset, `needProps, `before, `emitted, `tempSize, `taken, `stream
      reads lzma, rc`range, rc`code, lzma.probs, dict.buf, temp
      reads dict`start, dict`pos, dict`full, dict`end, dict`size, dict`hist, dict`laps, dict`units
    {
      && Wired() && lzma.probs.Length == PROBS_TOTAL && Settled() && Parked() && tempSize <= compressed
      && Sound(lzma, SEAL) && TOP <= rc.range && !needDictReset && !needProps && sequence.SeqLzmaRun?
      && emitted == before + dict.hist
    }

    lemma GoodBetween()
      ensures Good() && sequence.SeqLzmaRun? ==> Between() && uncompressed > 0 && Abs() == Here()
      ensures Between() && uncompressed > 0 ==> Good() && Abs() == Here()
    {
      Unfold();
    }

    /** dict_limit: how much can be decoded at most in this round. */
    method SetLimit(b: XzBuf)
      requires Between() && b.outPos <= b.outSize
      modifies dict`limit
      ensures Running() && dict.limit - dict.pos == Min(dict.end - dict.pos, Min(b.outSize - b.outPos, uncompressed))
    {
      lzma.SoundIs();
      RingOkIs(dict);
      dict.Limit(Min(b.outSize - b.outPos, uncompressed));
      PrimedIs();
    }

    /** dict_flush: the bytes just decoded go to the caller. */
    method Drain(b: XzBuf) returns (ghost sent: seq<byte>)
      requires Running() && Apart(b) && dict.limit - dict.start <= b.outSize - b.outPos && !needDictReset && !needProps && sequence.SeqLzmaRun?
      modifies `uncompressed, `emitted, dict`pos, dict`start, dict`laps, b`outPos, b.output
      ensures Between() && Here() == old(Here()) && emitted == old(emitted) + sent && |sent| == old(dict.pos - dict.start)
      ensures uncompressed == old(uncompressed) - |sent| && b.outPos == old(b.outPos) + |sent| <= b.outSize
      ensures b.output[..] == Overwrite(old(b.output[..]), old(b.outPos), sent) && b.input[..] == old(b.input[..])
    {
      PrimedIs();
      var n;
      n, sent := FlushPending(b);
      emitted := emitted + sent;
      uncompressed := uncompressed - n;
    }

    method FlushPending(b: XzBuf) returns (n: nat, ghost sent: seq<byte>)
      requires Wired() && Sound(lzma, SEAL) && Flushed() && Apart(b) && dict.pos <= dict.limit <= dict.end
      requires dict.limit - dict.start <= b.outSize - b.outPos
      modifies dict`pos, dict`start, dict`laps, b`outPos, b.output
      ensures Sound(lzma, SEAL) && lzma.probs.Length == PROBS_TOTAL && Settled() && n == |sent| == old(dict.pos - dict.start)
      ensures emitted + sent == before + dict.hist
      ensures b.outPos == old(b.outPos) + |sent| <= b.outSize
      ensures b.output[..] == Overwrite(old(b.output[..]), old(b.outPos), sent) && b.input[..] == old(b.input[..])
    {
      lzma.SoundIs();
      RingOkIs(dict);
      sent := dict.Pending();
      assert before + dict.hist == emitted + sent;
      n := dict.Flush(b);
      lzma.SoundIs();
      RingOkIs(dict);
    }

    /** The end of an LZMA chunk that came out even. */
    method ChunkDone()
      requires Between() && uncompressed == 0 && compressed == 0 && lzma.len == 0 && rc.code == 0
      modifies `sequence, rc`range, rc`code, rc`initBytesLeft
      ensures Good() && sequence.SeqControl? && old(Here()).place.LzmaRun? && Abs() == M.ChunkEnd(old(Here()))
    {
      lzma.SoundIs();
      rc.Reset();
      sequence := SeqControl;
      lzma.SoundIs();
      Unfold();
    }

    // The decoder is where the machine comes to, bytes not flushed yet included.
    ghost predicate MidPath()
      reads `uncompressed, `compressed, `before, `tempSize, `taken, `stream, `steps
      reads lzma, rc`range, rc`code, lzma.probs, dict`hist, dict`pos, dict`start, dict`size
    {
      M.Path(dict.size, stream, M.Start(), steps, Here(), SEAL)
    }

    /** dict_limit and lzma2_lzma */
    method LimitedLzma(b: XzBuf) returns (ok: bool, ghost k: nat)
      requires Between() && uncompressed > 0 && Offered(b) && Apart(b)
      modifies rc`range, rc`code, rc`inPos, rc`inLimit, rc`input, lzma.probs
      modifies lzma`state, lzma`rep0, lzma`rep1, lzma`rep2, lzma`rep3, lzma`len
      modifies dict`pos, dict`full, dict`hist, dict`limit, dict.buf
      modifies temp, `tempSize, `compressed, `taken, b`inPos
      ensures b.input[..] == old(b.input[..])
      ensures ok ==>
        && Running() && Offered(b) && TookFrom(b, old(b.inPos), old(taken))
        && M.Path(dict.size, stream, old(Here()), k, Here(), SEAL)
        && dict.limit - dict.start <= b.outSize - b.outPos
        && (b.outPos < b.outSize ==>
             dict.pos > dict.start || b.inPos > old(b.inPos) || (b.inPos == b.inSize && tempSize < compressed))
      ensures !ok ==> M.Fails(dict.size, stream, offered, old(Here()), k, SEAL)
      ensures old(b.inPos) <= b.inPos <= b.inSize
    {
      SetLimit(b);
      assert Here() == old(Here()) && Offered(b);
      ok, k := Lzma(b);
    }

    /** The same, told from the start of the stream. */
    method RunLzma(b: XzBuf) returns (ok: bool)
      requires Between() && uncompressed > 0 && MidPath() && Offered(b) && Apart(b)
      modifies rc`range, rc`code, rc`inPos, rc`inLimit, rc`input, lzma.probs
      modifies lzma`state, lzma`rep0, lzma`rep1, lzma`rep2, lzma`rep3, lzma`len
      modifies dict`pos, dict`full, dict`hist, dict`limit, dict.buf
      modifies temp, `tempSize, `compressed, `taken, `steps, b`inPos
      ensures b.input[..] == old(b.input[..])
      ensures ok ==>
        && Running() && MidPath() && Offered(b) && TookFrom(b, old(b.inPos), old(taken))
        && dict.limit - dict.start <= b.outSize - b.outPos
        && (b.outPos < b.outSize ==>
             dict.pos > dict.start || b.inPos > old(b.inPos) || (b.inPos == b.inSize && tempSize < compressed))
      ensures !ok ==> M.FailsWith(dict.size, stream, offered, M.Start(), steps, emitted, SEAL)
      ensures old(b.inPos) <= b.inPos <= b.inSize
    {
      ghost var s, j := Here(), steps;
      ghost var k;
      BehindHere();
      ok, k := LimitedLzma(b);
      steps := j + k;
      if ok {
        M.PathThen(dict.size, stream, M.Start(), j, s, k, Here());
      } else {
        M.FailsAfter(dict.size, stream, offered, M.Start(), j, s, k, emitted);
      }
    }

    lemma BehindHere()
      requires Between()
      ensures emitted <= M.Produced(Here())
    {
      lzma.SoundIs();
      assert dict.hist <= Completed(dict.hist, lzma.rep0, lzma.len);
    }

    /** What follows dict_flush: the end of the chunk is checked, or the caller is asked for more. */
    method Conclude(b: XzBuf) returns (v: Verdict)
      requires Between() && MidPath() && taken <= offered <= |stream|
      modifies `steps, `sequence, rc`range, rc`code, rc`initBytesLeft
      ensures v.Going? || v.Waiting? || v.Bad?
      ensures !v.Bad? ==> Valid()
      ensures v.Bad? ==> M.FailsWith(dict.size, stream, offered, M.Start(), steps, emitted, SEAL)
      ensures v.Waiting? ==> b.inPos == b.inSize || b.outPos == b.outSize
      ensures v.Going? ==>
        uncompressed == 0 || (b.outPos != b.outSize && (b.inPos != b.inSize || tempSize >= compressed))
    {
      GoodBetween();
      ghost var s := Here();
      M.PathUnprompted(dict.size, stream, offered, M.Start(), steps, s);
      BehindHere();
      v := Going;
      if uncompressed == 0 {
        if compressed > 0 || lzma.len > 0 || rc.code != 0 {
          M.FailsLess(dict.size, stream, offered, M.Start(), steps + 1, M.Produced(s), emitted);
          v := Bad;
        } else {
          ChunkDone();
        }
        steps := steps + 1;
      } else if b.outPos == b.outSize || (b.inPos == b.inSize && tempSize < compressed) {
        v := Waiting;
      }
    }

    /** SEQ_LZMA_RUN */
    method HandleRun(b: XzBuf) returns (v: Verdict, ghost sent: seq<byte>)
      requires Valid() && Offered(b) && Apart(b) && sequence.SeqLzmaRun?
      modifies rc`range, rc`code, rc`inPos, rc`inLimit, rc`input, rc`initBytesLeft, lzma.probs
      modifies lzma`state, lzma`rep0, lzma`rep1, lzma`rep2, lzma`rep3, lzma`len
      modifies dict`pos, dict`start, dict`full, dict`hist, dict`limit, dict`laps, dict.buf
      modifies temp, `tempSize, `compressed, `uncompressed, `taken, `steps, `emitted, `sequence, b`inPos, b`outPos, b.output
      ensures b.input[..] == old(b.input[..])
      ensures b.outPos == old(b.outPos) + |sent| <= b.outSize && b.output[..] == Overwrite(old(b.output[..]), old(b.outPos), sent)
      ensures v.Going? || v.Waiting? || v.Bad?
      ensures !v.Bad? ==> Valid() && Offered(b) && TookFrom(b, old(b.inPos), old(taken)) && emitted == old(emitted) + sent
      ensures v.Bad? ==> M.FailsWith(dict.size, stream, offered, M.Start(), steps, old(emitted) + sent, SEAL)
      ensures v.Waiting? ==> b.inPos == b.inSize || b.outPos == b.outSize
      ensures v.Going? ==> b.inPos > old(b.inPos) || b.outPos > old(b.outPos)
      ensures old(b.inPos) <= b.inPos <= b.inSize
    {
      GoodBetween();
      var ok := RunLzma(b);
      if ok {
        v, sent := DrainAndConclude(b);
      } else {
        v, sent := Bad, [];
        NothingSent(b.output[..], b.outPos);
      }
    }

    lemma NothingSent(o: seq<byte>, at: nat)
      requires at <= |o|
      ensures Overwrite(o, at, []) == o && emitted + [] == emitted
    {
    }

    method DrainAndConclude(b: XzBuf) returns (v: Verdict, ghost sent: seq<byte>)
      requires Running() && MidPath() && Apart(b) && dict.limit - dict.start <= b.outSize - b.outPos
      requires !needDictReset && !needProps && sequence.SeqLzmaRun? && Offered(b)
      modifies `uncompressed, `emitted, dict`pos, dict`start, dict`laps, b`outPos, b.output
      modifies `steps, `sequence, rc`range, rc`code, rc`initBytesLeft
      ensures b.input[..] == old(b.input[..]) && |sent| == old(dict.pos - dict.start)
      ensures b.outPos == old(b.outPos) + |sent| <= b.outSize && b.output[..] == Overwrite(old(b.output[..]), old(b.outPos), sent)
      ensures v.Going? || v.Waiting? || v.Bad?
      ensures !v.Bad? ==> Valid() && emitted == old(emitted) + sent && Offered(b)
      ensures v.Bad? ==> M.FailsWith(dict.size, stream, offered, M.Start(), steps, old(emitted) + sent, SEAL)
      ensures v.Waiting? ==> b.inPos == b.inSize || b.outPos == b.outSize
      ensures v.Going? ==>
        uncompressed == 0 || (b.outPos != b.outSize && (b.inPos != b.inSize || tempSize >= compressed))
      ensures uncompressed == old(uncompressed) - |sent|
    {
      sent := Drain(b);
      v := Conclude(b);
    }

    /** One round of the loop of xz_dec_lzma2_run. */
    method Iterate(b: XzBuf) returns (v: Verdict, ghost sent: seq<byte>)
      requires Valid() && Offered(b) && Apart(b) && (b.inPos < b.inSize || sequence.SeqLzmaRun?)
      modifies this, rc, lzma, dict, lzma.probs, dict.buf, temp, b`inPos, b`outPos, b.output
      ensures stream == old(stream) && offered == old(offered) && dict.size == old(dict.size) && b.input[..] == old(b.input[..])
      ensures b.outPos == old(b.outPos) + |sent| <= b.outSize && b.output[..] == Overwrite(old(b.output[..]), old(b.outPos), sent)
      ensures v.Going? || v.Waiting? ==>
        Valid() && Offered(b) && TookFrom(b, old(b.inPos), old(taken)) && emitted == old(emitted) + sent
      ensures v.AtEnd? ==>
        TookFrom(b, old(b.inPos), old(taken)) && M.Ends(dict.size, stream, M.Start(), steps, old(emitted) + sent, taken)
      ensures v.Bad? ==> M.FailsWith(dict.size, stream, offered, M.Start(), steps, old(emitted) + sent, SEAL)
      ensures v.Waiting? ==> b.inPos == b.inSize || b.outPos == b.outSize
      ensures v.Going? ==> b.inPos > old(b.inPos) || b.outPos > old(b.outPos) || (old(sequence.SeqLzmaPrepare?) && sequence.SeqLzmaRun?)
      ensures old(b.inPos) <= b.inPos <= b.inSize
    {
      sent := [];
      assert emitted + sent == emitted;
      if sequence.SeqLzmaRun? {
        v, sent := HandleRun(b);
      } else if sequence.SeqCopy? {
        ghost var t := taken;
        v := HandleCopy(b);
        sent := stream[t..taken];
      } else {
        v := HandleOther(b);
      }
    }

    // everything that produces no output
    method HandleOther(b: XzBuf) returns (v: Verdict)
      requires Valid() && Offered(b) && Apart(b) && b.inPos < b.inSize && !sequence.SeqLzmaRun? && !sequence.SeqCopy?
      modifies this, rc, lzma, lzma.probs, b`inPos
      modifies dict`start, dict`pos, dict`full, dict`limit, dict`hist, dict`laps
      ensures stream == old(stream) && offered == old(offered) && TookFrom(b, old(b.inPos), old(taken))
      ensures v.Going? || v.Waiting? ==> Valid() && Offered(b) && emitted == old(emitted)
      ensures v.AtEnd? ==> M.Ends(dict.size, stream, M.Start(), steps, old(emitted), taken)
      ensures v.Bad? ==> M.FailsWith(dict.size, stream, offered, M.Start(), steps, old(emitted), SEAL)
      ensures v.Waiting? ==> b.inPos == b.inSize
      ensures v.Going? ==> b.inPos > old(b.inPos) || (old(sequence.SeqLzmaPrepare?) && sequence.SeqLzmaRun?)
      ensures old(b.inPos) <= b.inPos <= b.inSize
    {
      if sequence.SeqControl? {
        v := HandleControl(b);
      } else if sequence.SeqLzmaPrepare? {
        v := HandlePrepare(b);
      } else if sequence.SeqProperties? {
        v := HandleProperties(b);
        if v.Going? {
          v := HandlePrepare(b);
        }
      } else {
        v := Going;
        HandleHeader(b);
      }
    }

    /** xz_dec_lzma2_run. However the caller cuts up the stream and the output space, after any number of
        calls the decoder is on the one path of the machine: what it has emitted was produced there, it
        reports the end of the stream where the machine finishes, with everything produced emitted, and an
        error only where the machine fails. It asks for more only when the input or the output space is
        used up. */
    method Run(b: XzBuf) returns (ret: XzRet, ghost sent: seq<byte>)
      requires Valid() && Promised(b) && Apart(b)
      modifies this, rc, lzma, dict, lzma.probs, dict.buf, temp, b`inPos, b`outPos, b.output
      ensures stream == old(stream) && offered == old(taken + (b.inSize - b.inPos)) <= |stream| && dict.size == old(dict.size) && b.input[..] == old(b.input[..])
      ensures b.outPos == old(b.outPos) + |sent| <= b.outSize && b.output[..] == Overwrite(old(b.output[..]), old(b.outPos), sent)
      ensures ret.XzOk? || ret.XzStreamEnd? || ret.XzDataError?
      ensures ret.XzOk? ==>
        && Valid() && Promised(b) && TookFrom(b, old(b.inPos), old(taken)) && emitted == old(emitted) + sent
        && (b.inPos == b.inSize || b.outPos == b.outSize)
      ensures ret.XzStreamEnd? ==>
        TookFrom(b, old(b.inPos), old(taken)) && M.Ends(dict.size, stream, M.Start(), steps, old(emitted) + sent, taken)
      ensures ret.XzDataError? ==> M.FailsWith(dict.size, stream, offered, M.Start(), steps, old(emitted) + sent, SEAL)
      ensures old(b.inPos) <= b.inPos <= b.inSize
    {
      AgreesIs(b.input[..], b.inPos, b.inSize, stream, taken);
      offered := taken + (b.inSize - b.inPos);
      ret, sent := Loop(b);
    }

    /** Nobody has to know in advance how the stream goes on: it may be taken to end with what is offered now. */
    ghost method Supply(b: XzBuf)
      requires Valid() && b.Valid()
      modifies `stream, `steps
      ensures Valid() && Promised(b) && taken <= |old(stream)| && stream == old(stream)[..taken] + b.input[b.inPos..b.inSize]
    {
      Glimpse();
      StillOpen();
      var s' := stream[..taken] + b.input[b.inPos..b.inSize];
      var n := P.SameStart(dict.size, stream, s', taken, steps, Abs());
      AgreesRest(b.input[..], b.inPos, b.inSize, stream[..taken]);
      Replace(s');
      steps := n;
    }

    ghost method Replace(s: seq<byte>)
      requires Good() && taken <= |stream| && taken <= |s| && s[..taken] == stream[..taken]
      modifies `stream
      ensures Good() && Abs() == old(Abs()) && stream == s
    {
      Unfold();
      AgreesPrefix(temp[..], tempSize, stream, s, taken);
      stream := s;
      Unfold();
    }

    /** Given the rest of a good stream and more room than its output needs, the call ends the stream. */
    method Finish(b: XzBuf, ghost k: nat, ghost out: seq<byte>, ghost pos: nat) returns (ret: XzRet, ghost sent: seq<byte>)
      requires Valid() && Promised(b) && Apart(b) && M.Ends(dict.size, stream, M.Start(), k, out, pos)
      requires pos <= taken + (b.inSize - b.inPos) && |out| < |emitted| + (b.outSize - b.outPos)
      modifies this, rc, lzma, dict, lzma.probs, dict.buf, temp, b`inPos, b`outPos, b.output
      ensures ret.XzStreamEnd? && old(emitted) + sent == out && taken == pos
      ensures b.outPos == old(b.outPos) + |sent| && b.output[..] == Overwrite(old(b.output[..]), old(b.outPos), sent)
    {
      M.OneMeaning(dict.size, stream, M.Start(), k, out, pos);
      ret, sent := Run(b);
      if ret.XzOk? {
        NotEnded(k, out, pos);
      }
    }

    /** A decoder that asks for more has not been given the end of the stream. */
    lemma NotEnded(k: nat, out: seq<byte>, pos: nat)
      requires Valid() && M.Ends(dict.size, stream, M.Start(), k, out, pos)
      ensures emitted <= out && pos > taken
    {
      EmittedOnPath();
      M.OneMeaning(dict.size, stream, M.Start(), k, out, pos);
      StillOpen();
      M.StarvedNotEnded(dict.size, stream, steps, Abs(), taken, k, out, pos);
    }

    lemma StillOpen()
      requires Good()
      ensures M.Starved(Abs(), taken) && Abs().m.d.pos <= taken
    {
      Unfold();
    }

    // the loop of xz_dec_lzma2_run
    method Loop(b: XzBuf) returns (ret: XzRet, ghost sent: seq<byte>)
      requires Valid() && Offered(b) && Apart(b)
      modifies this, rc, lzma, dict, lzma.probs, dict.buf, temp, b`inPos, b`outPos, b.output
      ensures stream == old(stream) && offered == old(offered) && dict.size == old(dict.size) && b.input[..] == old(b.input[..])
      ensures b.outPos == old(b.outPos) + |sent| <= b.outSize && b.output[..] == Overwrite(old(b.output[..]), old(b.outPos), sent)
      ensures ret.XzOk? || ret.XzStreamEnd? || ret.XzDataError?
      ensures ret.XzOk? ==>
        && Valid() && Offered(b) && TookFrom(b, old(b.inPos), old(taken)) && emitted == old(emitted) + sent
        && (b.inPos == b.inSize || b.outPos == b.outSize)
      ensures ret.XzStreamEnd? ==>
        TookFrom(b, old(b.inPos), old(taken)) && M.Ends(dict.size, stream, M.Start(), steps, old(emitted) + sent, taken)
      ensures ret.XzDataError? ==> M.FailsWith(dict.size, stream, offered, M.Start(), steps, old(emitted) + sent, SEAL)
      ensures old(b.inPos) <= b.inPos <= b.inSize
    {
      sent := [];
      ghost var out0, outPos0, inPos0, e0, t0 := b.output[..], b.outPos, b.inPos, emitted, taken;
      while b.inPos < b.inSize || sequence.SeqLzmaRun?
        invariant stream == old(stream) && offered == old(offered) && dict.size == old(dict.size) && b.input[..] == old(b.input[..])
        invariant inPos0 <= b.inPos <= b.inSize
        invariant b.outPos == outPos0 + |sent| <= b.outSize && b.output[..] == Overwrite(out0, outPos0, sent)
        invariant Valid() && Offered(b) && TookFrom(b, inPos0, t0) && emitted == e0 + sent
        decreases b.outSize - b.outPos + b.inSize - b.inPos, if sequence.SeqLzmaPrepare? then 1 else 0
      {
        ghost var more;
        var v;
        v, more := Iterate(b);
        OverwriteTwice(out0, outPos0, sent, more);
        assert e0 + sent + more == e0 + (sent + more);
        sent := sent + more;
        if v.Waiting? {
          return XzOk, sent;
        } else if v.AtEnd? {
          return XzStreamEnd, sent;
        } else if v.Bad? {
          return XzDataError, sent;
        }
      }
      ret := XzOk;
    }

    /** xz_dec_lzma2_reset: a new stream `s` begins. The largest dictionary is 3 GiB. */
    method Reset(props: byte, ghost s: seq<byte>) returns (ret: XzRet)
      requires Wired() && lzma.probs.Length == PROBS_TOTAL
      modifies this, dict`size, dict`end, dict`units, lzma`len
      ensures ret == if props > 39 then XzOptionsError else if M.DictSize(props) > dict.buf.Length then XzMemlimitError else XzOk
      ensures ret.XzOk? ==>
        && Valid() && dict.size == M.DictSize(props) <= 3 * 0x4000_0000
        && stream == s && taken == 0 && emitted == [] && steps == 0 && Abs() == M.Start()
    {
      if props > 39 {
        return XzOptionsError;
      }
      dict.size := 2 + props % 2;
      dict.size := Shl(dict.size, props / 2 + 11);
      DictSizeIs(props);
      if dict.size > dict.buf.Length {
        return XzMemlimitError;
      }
      dict.SetEnd();
      StartStream(s);
      ret := XzOk;
    }

    method StartStream(ghost s: seq<byte>)
      requires Wired() && lzma.probs.Length == PROBS_TOTAL && dict.SizeOk()
      modifies `sequence, `needDictReset, `tempSize, `stream, `taken, `before, `emitted, `steps, lzma`len
      ensures Valid() && stream == s && taken == 0 && emitted == [] && steps == 0 && Abs() == M.Start()
    {
      lzma.len := 0;
      sequence := SeqControl;
      needDictReset := true;
      tempSize := 0;
      stream, taken, before, emitted, steps := s, 0, [], [], 0;
      AtStart();
    }

    lemma AtStart()
      requires Wired() && lzma.probs.Length == PROBS_TOTAL && dict.SizeOk() && lzma.len == 0
      requires sequence.SeqControl? && needDictReset && tempSize == 0 && taken == 0 && before == [] && emitted == [] && steps == 0
      ensures Valid() && Abs() == M.Start()
    {
      AgreesIs(temp[..], 0, 0, stream, taken);
      M.PathStep(dict.size, stream, M.Start());
      Unfold();
    }

    /** Everything emitted so far was produced by the machine on its path. */
    lemma EmittedOnPath()
      requires Valid()
      ensures M.Path(dict.size, stream, M.Start(), steps, Abs(), SEAL) && emitted <= M.Produced(Abs())
    {
      if sequence.SeqLzmaRun? {
        GoodBetween();
        BehindHere();
      } else {
        Glimpse();
      }
    }
  }

  lemma DictSizeIs(props: byte)
    requires props <= 39
    ensures Shl(2 + props % 2, props / 2 + 11) == M.DictSize(props)
    ensures 0 < M.DictSize(props) <= 3 * 0x4000_0000 && M.DictSize(props) % 16 == 0
  {
    var m, e := 2 + props % 2, props / 2 + 7;
    ShlIsMul(m, e + 4);
    Pow2Add(4, e);
    assert Pow2(4) == 16;
    Pow2Mono(e + 4, 30);
    OneGiB();
    MulSixteen(m, Pow2(e));
    MulBelow(m, 3, Pow2(e + 4), 0x4000_0000);
  }

  lemma OneGiB()
    ensures Pow2(30) == 0x4000_0000
  {
    Pow2Add(15, 15);
    Pow2Add(7, 8);
    assert Pow2(8) == 256 && Pow2(7) == 128;
  }

  lemma MulBelow(x: nat, y: nat, a: nat, b: nat)
    requires 0 < x <= y && 0 < a <= b
    ensures 0 < x * a <= y * b
  {
  }

  lemma MulSixteen(x: nat, y: nat)
    ensures x * (16 * y) == 16 * (x * y) && 16 * (x * y) % 16 == 0
  {
  }

  /** Two decoders that are fed the same stream, in whatever slices, never disagree: what one has emitted
      is a beginning of what the other has, and of all the output if the stream is good. Run says that each ends
      such a stream with just that output and position. */
  lemma SlicesAgree(x: XzDecLzma2, y: XzDecLzma2)
    requires x.Valid() && y.Valid() && x.stream == y.stream && x.dict.size == y.dict.size
    ensures x.emitted <= y.emitted || y.emitted <= x.emitted
    ensures forall k, out, pos :: M.Ends(x.dict.size, x.stream, M.Start(), k, out, pos) ==>
      x.emitted <= out && y.emitted <= out && x.taken < pos && y.taken < pos
  {
    forall k, out, pos | M.Ends(x.dict.size, x.stream, M.Start(), k, out, pos)
      ensures x.emitted <= out && y.emitted <= out && x.taken < pos && y.taken < pos
    {
      x.NotEnded(k, out, pos);
      y.NotEnded(k, out, pos);
    }
    x.EmittedOnPath();
    y.EmittedOnPath();
    M.PathsComparable(x.dict.size, x.stream, M.Start(), x.steps, x.Abs(), y.steps, y.Abs());
    var all := if M.Produced(x.Abs()) <= M.Produced(y.Abs()) then M.Produced(y.Abs()) else M.Produced(x.Abs());
    assert x.emitted <= all && y.emitted <= all;
  }

  ghost predicate SealedPrimed(x: XzDecLzma2, seal: nat)
    reads x`uncompressed, x`before, x`emitted, x.lzma, x.rc`range, x.rc`code, x.lzma.probs, x.dict.buf
    reads x.dict`start, x.dict`pos, x.dict`full, x.dict`end, x.dict`size, x.dict`hist, x.dict`laps, x.dict`units, x.dict`limit
    decreases seal, x
  {
    if seal == 0 then x.PrimedParts() else SealedPrimed(x, seal - 1)
  }

  /** inp[lo..hi] is how the stream goes on from `t`. */
  ghost predicate Agrees(inp: seq<byte>, lo: nat, hi: nat, stream: seq<byte>, t: nat, seal: nat)
    decreases seal, stream
  {
    if seal > 0 then Agrees(inp, lo, hi, stream, t, seal - 1)
    else lo <= hi <= |inp| && t + (hi - lo) <= |stream| && SameBytes(inp, stream, lo, hi, t - lo)
  }

  lemma AgreesIs(inp: seq<byte>, lo: nat, hi: nat, stream: seq<byte>, t: nat)
    ensures Agrees(inp, lo, hi, stream, t, SEAL) <==>
      lo <= hi <= |inp| && t + (hi - lo) <= |stream| && SameBytes(inp, stream, lo, hi, t - lo)
    ensures Agrees(inp, lo, hi, stream, t, SEAL) ==> forall i :: lo <= i < hi ==> inp[i] == stream[i + t - lo]
  {
    assert Agrees(inp, lo, hi, stream, t, 1) == Agrees(inp, lo, hi, stream, t, 0);
    assert Agrees(inp, lo, hi, stream, t, 2) == Agrees(inp, lo, hi, stream, t, 1);
    assert Agrees(inp, lo, hi, stream, t, 3) == Agrees(inp, lo, hi, stream, t, 2);
    if Agrees(inp, lo, hi, stream, t, SEAL) {
      forall i | lo <= i < hi
        ensures inp[i] == stream[i + t - lo]
      {
        assert At(inp, i) == At(stream, i + (t - lo));
      }
    }
  }

  lemma AgreesPrefix(a: seq<byte>, n: nat, stream: seq<byte>, stream': seq<byte>, t: nat)
    requires n <= t <= |stream| && t <= |stream'| && stream[..t] == stream'[..t] && Agrees(a, 0, n, stream, t - n, SEAL)
    ensures Agrees(a, 0, n, stream', t - n, SEAL)
  {
    AgreesIs(a, 0, n, stream, t - n);
    AgreesIs(a, 0, n, stream', t - n);
    forall i | 0 <= i < n
      ensures At(a, i) == At(stream', i + (t - n))
    {
      assert stream[..t][i + (t - n)] == stream'[..t][i + (t - n)];
    }
  }

  lemma AgreesRest(inp: seq<byte>, lo: nat, hi: nat, start: seq<byte>)
    requires lo <= hi <= |inp|
    ensures Agrees(inp, lo, hi, start + inp[lo..hi], |start|, SEAL)
  {
    var stream := start + inp[lo..hi];
    AgreesIs(inp, lo, hi, stream, |start|);
    forall i | lo <= i < hi
      ensures At(inp, i) == At(stream, i + (|start| - lo))
    {
      assert stream[i + (|start| - lo)] == inp[lo..hi][i - lo];
    }
  }

  /** What agreed up to `t`, continued by `n` bytes that go on from there. */
  lemma AgreesJoin(a: seq<byte>, k: nat, inp: seq<byte>, lo: nat, hi: nat, stream: seq<byte>, t: nat, n: nat, r: seq<byte>)
    requires k <= t && Agrees(a, 0, k, stream, t - k, SEAL) && Agrees(inp, lo, hi, stream, t, SEAL)
    requires lo + n <= hi <= |inp| && k <= |a| && k + n <= |r| && r[..k + n] == a[..k] + inp[lo..lo + n]
    ensures Agrees(r, 0, k + n, stream, t - k, SEAL) && Agrees(r, 0, k, stream, t - k, SEAL)
  {
    AgreesIs(a, 0, k, stream, t - k);
    AgreesIs(inp, lo, hi, stream, t);
    AgreesIs(r, 0, k + n, stream, t - k);
    AgreesIs(r, 0, k, stream, t - k);
    forall i | 0 <= i < k + n
      ensures At(r, i) == At(stream, i + (t - k))
    {
      assert r[i] == r[..k + n][i];
      if i < k {
        assert a[i] == stream[i + (t - k)];
      } else {
        assert inp[lo + (i - k)] == stream[lo + (i - k) + t - lo];
      }
    }
  }

  /** The first `k` bytes of a buffer are dropped, `n` stay. */
  lemma AgreesDropped(a: seq<byte>, k: nat, n: nat, stream: seq<byte>, t: nat, r: seq<byte>)
    requires Agrees(a, 0, k + n, stream, t, SEAL) && k + n <= |a| && n <= |r| && r[..n] == a[k..k + n]
    ensures Agrees(r, 0, n, stream, t + k, SEAL)
  {
    AgreesIs(a, 0, k + n, stream, t);
    AgreesIs(r, 0, n, stream, t + k);
    forall i | 0 <= i < n
      ensures At(r, i) == At(stream, i + (t + k))
    {
      assert r[i] == r[..n][i] == a[i + k];
    }
  }

  lemma AgreesLater(inp: seq<byte>, lo: nat, hi: nat, stream: seq<byte>, t: nat, n: nat)
    requires Agrees(inp, lo, hi, stream, t, SEAL) && lo + n <= hi
    ensures Agrees(inp, lo + n, hi, stream, t + n, SEAL)
  {
    AgreesIs(inp, lo, hi, stream, t);
    AgreesIs(inp, lo + n, hi, stream, t + n);
    forall i | lo + n <= i < hi
      ensures At(inp, i) == At(stream, i + (t - lo))
    {
    }
  }

  ghost predicate Sealed(x: XzDecLzma2, seal: nat)
    reads x`sequence, x`nextSequence, x`uncompressed, x`compressed, x`needDictReset, x`needProps, x`before, x`emitted, x`tempSize, x`taken, x`stream
    reads x.lzma, x.rc`range, x.rc`code, x.lzma.probs, x.rc`initBytesLeft, x.dict.buf, x.temp
    reads x.dict`start, x.dict`pos, x.dict`full, x.dict`end, x.dict`size, x.dict`hist, x.dict`laps, x.dict`units
    decreases seal, x
  {
    if seal == 0 then x.Parts() else Sealed(x, seal - 1)
  }

  ghost function StateOf(x: XzDecLzma2, seal: nat): M.Lzma2
    reads x`sequence, x`nextSequence, x`uncompressed, x`compressed, x`needDictReset, x`needProps, x`before, x`tempSize, x`taken
    reads x.lzma, x.rc`range, x.rc`code, x.lzma.probs, x.rc`initBytesLeft
    reads x.dict`hist, x.dict`pos, x.dict`start
    decreases seal, x
  {
    if seal == 0 then x.Raw() else StateOf(x, seal - 1)
  }
}
