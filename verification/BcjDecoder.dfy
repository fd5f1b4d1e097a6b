/**
 struct xz_dec_bcj of compat/xz_dec_bcj.c with the x86 filter: the filter in place in a buffer, and
 xz_dec_bcj_run, which filters the output of the LZMA2 decoder as it comes in and hides that the filter
 needs to look four bytes ahead.
 */
module BcjDecoder {
  import opened Words
  import opened Arithmetic
  import opened Memory
  import opened BcjX86
  import opened XzApi
  import opened Lzma2Decoder
  import opened S = Lzma2Source

  class XzDecBcj {
    const singleCall: bool
    var pos: Word
    var x86PrevMask: nat
    var ret: XzRet
    const temp: array<byte>
    var filtered: nat
    var size: nat

    ghost var eaten: seq<byte>    // the input so far
    ghost var fed: seq<byte>      // what the LZMA2 decoder made of it
    ghost var emitted: seq<byte>  // what was handed to the caller

    // xz_dec_bcj_create
    constructor (singleCall: bool)
      ensures fresh(temp) && this.singleCall == singleCall
      ensures Valid() && ret == XzOk && filtered == 0 && eaten == [] && fed == [] && emitted == []
    {
      this.singleCall := singleCall;
      pos, x86PrevMask, ret, filtered, size := 0, 0, XzOk, 0, 0;
      temp := new byte[16];
      eaten, fed, emitted := [], [], [];
      FilterIs(0, 0, []);
    }

    /** xz_dec_bcj_reset: a new Block begins. */
    method Reset(id: nat) returns (r: XzRet)
      requires temp.Length == 16
      modifies this
      ensures r == if id == BCJ_X86 then XzOk else XzOptionsError
      ensures r == XzOk ==> Valid() && Resumable() && ret == XzOk && eaten == [] && fed == [] && emitted == []
    {
      if id != BCJ_X86 {
        return XzOptionsError;
      }
      ret, pos, x86PrevMask, filtered, size := XzOk, 0, 0, 0, 0;
      eaten, fed, emitted := [], [], [];
      FilterIs(0, 0, []);
      r := XzOk;
    }

    /** The inner loop of bcj_x86. It makes at most two rounds. */
    method RelativeAddress(prevMask: Mask, base: Word, src0: Word) returns (dest: Word)
      requires prevMask != 0 ==> !TestMsByte(TopByte(src0, BitNum(prevMask)))
      ensures dest == Relative(prevMask, base, src0)
    {
      var src := src0;
      ghost var round := 0;
      while true
        invariant round == 0 ==> src == src0
        invariant round == 1 ==> prevMask != 0 && TestMsByte(TopByte((src0 - base) % TWO32, BitNum(prevMask)))
        invariant round == 1 ==> src == FlipLow((src0 - base) % TWO32, BitNum(prevMask))
        invariant 0 <= round <= 1
        decreases 1 - round
      {
        dest := (src - base) % TWO32;
        if prevMask == 0 {
          break;
        }
        SecondPass(prevMask, base, src0);
        if !TestMsByte(TopByte(dest, BitNum(prevMask))) {
          break;
        }
        src := FlipLow(dest, BitNum(prevMask));
        round := round + 1;
      }
    }

    /** One round of the loop of bcj_x86, at place `i` of the `size` bytes from `at` on. */
    method Visit(buf: array<byte>, at: nat, size: nat, i: nat, prevPos: int, prevMask: nat, ghost p: nat)
        returns (i': nat, prevPos': int, prevMask': nat)
      requires at + size <= buf.Length && i + 4 < size && -1 <= prevPos < i && pos == p % TWO32
      modifies buf
      ensures var rest, m := old(buf[at + i..at + size]), Faded(prevMask, i - prevPos);
        && i' == i + Advance(m, rest) <= size && -1 <= prevPos' < i'
        && Faded(prevMask', i' - prevPos') == AfterFirst(m, rest)
        && buf[..] == Overwrite(old(buf[..]), at + i, FirstOut(m, p + i, rest))
    {
      ghost var rest, b0 := buf[at + i..at + size], buf[..];
      assert rest[0] == buf[at + i];
      var m: nat := Faded(prevMask, i - prevPos);
      Masks(prevMask, i - prevPos, rest);
      i', prevPos', prevMask' := i + 1, prevPos, prevMask;
      OverwriteSame(b0, at + i, [rest[0]]);
      if !IsBranch(buf[at + i]) {
        return;
      }
      prevPos', prevMask' := i, m;
      var skip := NotHere(buf, at + i, m, rest);
      if skip {
        prevMask' := m * 2 + 1;
      } else {
        ConvertInPlace(buf, at + i, m, p + i, (pos + i + 5) % TWO32, rest);
        i' := i + 5;
      }
    }

    // the tests of bcj_x86 at an opcode
    method NotHere(buf: array<byte>, k: nat, m: Mask, ghost rest: seq<byte>) returns (skip: bool)
      requires k + |rest| <= buf.Length && rest == buf[k..k + |rest|] && |rest| > 4
      ensures skip == Skips(m, rest)
    {
      assert forall j :: 1 <= j <= 4 ==> rest[j] == buf[k + j];
      skip := (m != 0 && (!Allowed(m) || TestMsByte(buf[k + 4 - BitNum(m)]))) || !TestMsByte(buf[k + 4]);
    }

    // the address of the instruction at `k`
    method ConvertInPlace(buf: array<byte>, k: nat, m: Mask, ghost p: nat, base: Word, ghost rest: seq<byte>)
      requires k + |rest| <= buf.Length && rest == buf[k..k + |rest|] && |rest| > 4 && !Skips(m, rest)
      requires base == (p + 5) % TWO32
      modifies buf
      ensures buf[..] == Overwrite(old(buf[..]), k, [rest[0]] + Convert(m, p, rest))
    {
      ghost var b0 := buf[..];
      assert rest[1..5] == buf[k + 1..k + 5] by {
        assert forall j :: 0 <= j < |rest| ==> rest[j] == buf[k + j];
      }
      var src := GetLe32(buf, k + 1);
      if m != 0 {
        TopByteIs(rest[1..5], BitNum(m));
      }
      var dest := RelativeAddress(m, base, src);
      PutLe32(buf, k + 1, SignExtend(dest));
      OverwriteSame(b0, k, [rest[0]]);
      OverwriteTwice(b0, k, [rest[0]], Convert(m, p, rest));
    }

    // get_unaligned_le32
    method GetLe32(buf: array<byte>, k: nat) returns (x: Word)
      requires k + 4 <= buf.Length
      ensures x == Le32(buf[k..k + 4])
    {
      x := Le32(buf[k..k + 4]);
    }

    // put_unaligned_le32
    method PutLe32(buf: array<byte>, k: nat, x: Word)
      requires k + 4 <= buf.Length
      modifies buf
      ensures buf[..] == Overwrite(old(buf[..]), k, Bytes32(x))
    {
      var b := Bytes32(x);
      OverwriteIs(buf[..], k, b);
      buf[k], buf[k + 1], buf[k + 2], buf[k + 3] := b[0], b[1], b[2], b[3];
    }

    /** bcj_x86 on buf[at..at + size]: the filtered bytes take the place of the old ones, the last few stay
        as they are, and the mask is kept for the next call. */
    method X86(buf: array<byte>, at: nat, size: nat, ghost p: nat) returns (i: nat)
      requires at + size <= buf.Length && pos == p % TWO32
      modifies buf, `x86PrevMask
      ensures var s := old(buf[at..at + size]);
        var f := Filter(Faded(old(x86PrevMask), 1), p, s);
        && i == |f.out| && f.rest == s[i..] && Faded(x86PrevMask, 1) == f.mask
        && buf[..] == Overwrite(old(buf[..]), at, f.out)
    {
      ghost var s, b0, m0 := buf[at..at + size], buf[..], Faded(x86PrevMask, 1);
      assert Overwrite(b0, at, []) == b0;
      Starts(m0, p, s);
      if size <= 4 {
        Finishes(m0, p, s, [], m0);
        return 0;
      }
      var prevPos, prevMask;
      ghost var out;
      i, prevPos, prevMask, out := Places(buf, at, size, p);
      Finishes(m0, p, s, out, Faded(prevMask, i - prevPos));
      x86PrevMask := Shifted(prevMask, i - prevPos);
    }

    // the loop of bcj_x86
    method Places(buf: array<byte>, at: nat, size: nat, ghost p: nat)
        returns (i: nat, prevPos: int, prevMask: nat, ghost out: seq<byte>)
      requires at + size <= buf.Length && pos == p % TWO32 && size > 4
      modifies buf
      ensures i == |out| <= size <= i + 4 && -1 <= prevPos < i
      ensures buf[..] == Overwrite(old(buf[..]), at, out)
      ensures SoFar(Faded(x86PrevMask, 1), p, old(buf[at..at + size]), out, Faded(prevMask, i - prevPos))
    {
      ghost var s, b0 := buf[at..at + size], buf[..];
      prevPos, prevMask := -1, x86PrevMask;
      i, out := 0, [];
      Starts(Faded(x86PrevMask, 1), p, s);
      while i < size - 4
        invariant i == |out| <= size && -1 <= prevPos < i
        invariant buf[..] == Overwrite(b0, at, out)
        invariant SoFar(Faded(x86PrevMask, 1), p, s, out, Faded(prevMask, i - prevPos))
      {
        ghost var m, rest := Faded(prevMask, i - prevPos), s[i..];
        RestKept(b0, at, size, out);
        Continues(Faded(x86PrevMask, 1), p, s, out, m);
        i, prevPos, prevMask := Visit(buf, at, size, i, prevPos, prevMask, p);
        OverwriteTwice(b0, at, out, FirstOut(m, p + |out|, rest));
        out := out + FirstOut(m, p + |out|, rest);
      }
    }

    /** Between two calls: everything that has been filtered was emitted or is at the front of temp, and the
        few bytes that have not been are behind it. */
    ghost predicate Valid()
      reads this, temp
    {
      && temp.Length == 16 && filtered <= size <= 16
      && Holds(fed, emitted, temp[..filtered], temp[filtered..size], ret)
      && (ret == XzOk ==> Resumes(fed, pos, x86PrevMask))
    }

    /** The LZMA2 decoder is where this decoder takes it to be. */
    ghost predicate Fed(d: XzDecLzma2)
      reads `ret, `eaten, `fed
      reads d, d.lzma, d.rc`range, d.rc`code, d.rc`initBytesLeft, d.lzma.probs, d.dict.buf, d.temp
      reads d.dict`start, d.dict`pos, d.dict`full, d.dict`end, d.dict`size, d.dict`hist, d.dict`laps, d.dict`units
    {
      && (ret == XzOk ==> d.Valid() && Eaten(d) == eaten && d.emitted == fed)
      && (ret == XzStreamEnd ==> Ended(d.dict.size, eaten, fed))
    }

    // no buffer serves two purposes
    ghost predicate Away(d: XzDecLzma2, b: XzBuf)
      reads b
    {
      d.Apart(b) && temp != b.input && temp != b.output && temp != d.temp && temp != d.dict.buf
    }

    // bcj_apply
    method Apply(buf: array<byte>, at: nat, end: nat, ghost p: nat) returns (at': nat)
      requires at <= end <= buf.Length && pos == p % TWO32
      modifies buf, `x86PrevMask, `pos
      ensures var s := old(buf[at..end]);
        var f := Filter(Faded(old(x86PrevMask), 1), p, s);
        && at' == at + |f.out| && f.rest == s[|f.out|..] && Faded(x86PrevMask, 1) == f.mask
        && pos == (p + |f.out|) % TWO32
        && buf[..] == Overwrite(old(buf[..]), at, f.out)
    {
      var n := X86(buf, at, end - at, p);
      at' := at + n;
      ModAdd(p, n, TWO32);
      pos := (pos + n) % TWO32;
    }

    /** bcj_flush */
    method Flush(out: array<byte>, at: nat, limit: nat) returns (at': nat)
      requires temp.Length == 16 && filtered <= size <= 16 && out != temp && at <= limit <= out.Length
      modifies this`filtered, this`size, this`emitted, temp, out
      ensures filtered <= size <= 16 && size - filtered == old(size - filtered)
      ensures at' == at + Min(old(filtered), limit - at) && filtered == old(filtered) - (at' - at)
      ensures out[..at] == old(out[..at]) && out[limit..] == old(out[limit..])
      ensures emitted == old(emitted) + out[at..at']
      ensures emitted + temp[..filtered] == old(emitted + temp[..filtered])
      ensures temp[filtered..size] == old(temp[filtered..size])
    {
      var n := Min(filtered, limit - at);
      ghost var e, o := emitted, out[..];
      MemCopy(temp, 0, out, at, n);
      OverwriteIs(o, at, temp[..n]);
      at' := at + n;
      assert out[at..at'] == temp[..n] && out[..at] == o[..at] && out[limit..] == o[limit..];
      DropFront(n);
      assert e + out[at..at'] + temp[..filtered] == e + (out[at..at'] + temp[..filtered]);
      emitted := e + out[at..at'];
    }

    // what was copied from the front of temp is removed: memmove
    method DropFront(n: nat)
      requires temp.Length == 16 && n <= filtered <= size <= 16
      modifies this`filtered, this`size, temp
      ensures filtered == old(filtered) - n && size == old(size) - n
      ensures old(temp[..n]) + temp[..filtered] == old(temp[..filtered])
      ensures temp[filtered..size] == old(temp[filtered..size])
    {
      ghost var t := temp[..];
      filtered, size := filtered - n, size - n;
      forall i | 0 <= i < size {
        temp[i] := temp[i + n];
      }
      MovedDown(t, temp[..], n, filtered, size);
    }

    /** bcj_apply to what the filter left over last time followed by the newest bytes. */
    method FilterNew(buf: array<byte>, at: nat, end: nat, ghost data: seq<byte>, ghost more: seq<byte>,
                     ghost e: seq<byte>, ghost raw: seq<byte>)
        returns (at': nat)
      requires at <= end <= buf.Length && Resumes(data, pos, x86PrevMask)
      requires Holds(data, e, [], raw, XzOk) && buf[at..end] == raw + more
      modifies buf, `x86PrevMask, `pos
      ensures at <= at' <= end <= at' + 4 && Resumes(data + more, pos, x86PrevMask)
      ensures Holds(data + more, e + buf[at..at'], [], buf[at'..end], XzOk)
      ensures buf[..at] == old(buf[..at]) && buf[end..] == old(buf[end..])
    {
      ghost var f, s, b0 := Filter(0, 0, data), buf[at..end], buf[..];
      ghost var g := Filter(f.mask, |f.out|, s);
      at' := Apply(buf, at, end, |f.out|);
      OverwrittenParts(b0, at, g.out, end);
      HoldsMore(data, more, e, raw, g);
    }

    // the bytes left over last time, and as many new ones as there are, go to the caller's buffer
    method Fill(d: XzDecLzma2, b: XzBuf)
      requires temp.Length == 16 && size <= 16 && ret == XzOk && Fed(d) && Away(d, b) && b.outPos + size <= b.outSize
      modifies d, d.rc, d.lzma, d.dict, d.lzma.probs, d.dict.buf, d.temp, b`inPos, b`outPos, b.output
      modifies `ret, `eaten, `fed
      ensures Fed(d) && Away(d, b) && Moved(b) && d.dict.size == old(d.dict.size)
      ensures Read(b) && old(fed) <= fed && b.outPos == old(b.outPos) + size + (|fed| - |old(fed)|)
      ensures b.output[old(b.outPos)..b.outPos] == old(temp[..size]) + fed[|old(fed)|..]
      ensures ret == XzOk || ret == XzStreamEnd || ret == XzDataError
      ensures ret == XzOk ==> b.UsedUp()
      ensures ret == XzDataError ==> Wrong(d.dict.size, old(eaten) + old(b.input[b.inPos..b.inSize]))
    {
      ghost var o, at, raw := b.output[..], b.outPos, temp[..size];
      CopyRest(b);
      ghost var sent := Call(d, b);
      TwoWritten(o, at, raw, sent, b.output[..], b.outSize);
    }

    method CopyRest(b: XzBuf)
      requires temp.Length == 16 && size <= 16 && b.Valid() && temp != b.output && b.outPos + size <= b.outSize
      modifies b`outPos, b.output
      ensures b.Valid() && b.outPos == old(b.outPos) + size && b.input[..] == old(b.input[..])
      ensures b.output[..] == Overwrite(old(b.output[..]), old(b.outPos), old(temp[..size]))
    {
      MemCopy(temp, 0, b.output, b.outPos, size);
      b.outPos := b.outPos + size;
    }

    // the call of xz_dec_lzma2_run
    method Call(d: XzDecLzma2, b: XzBuf) returns (ghost sent: seq<byte>)
      requires ret == XzOk && Fed(d) && d.Apart(b)
      modifies d, d.rc, d.lzma, d.dict, d.lzma.probs, d.dict.buf, d.temp, b`inPos, b`outPos, b.output
      modifies `ret, `eaten, `fed
      ensures Fed(d) && b.Valid() && old(b.inPos) <= b.inPos && b.input[..] == old(b.input[..]) && d.dict.size == old(d.dict.size)
      ensures Read(b) && fed == old(fed) + sent
      ensures b.outPos == old(b.outPos) + |sent| && b.output[..] == Overwrite(old(b.output[..]), old(b.outPos), sent)
      ensures ret == XzOk || ret == XzStreamEnd || ret == XzDataError
      ensures ret == XzOk ==> b.UsedUp()
      ensures ret == XzDataError ==> Wrong(d.dict.size, old(eaten) + old(b.input[b.inPos..b.inSize]))
    {
      ghost var in0 := b.inPos;
      ret, sent := S.Run(d, b);
      eaten, fed := eaten + b.input[in0..b.inPos], fed + sent;
    }

    // input is taken and output is written, within the space there is for it
    twostate predicate Moved(b: XzBuf)
      reads b, b.input, b.output
    {
      && old(b.Valid()) && b.Valid() && old(b.inPos) <= b.inPos && old(b.outPos) <= b.outPos && b.input[..] == old(b.input[..])
      && b.output[..old(b.outPos)] == old(b.output[..b.outPos]) && b.output[b.outSize..] == old(b.output[b.outSize..])
    }

    twostate predicate Read(b: XzBuf)
      requires old(b.Valid()) && b.Valid() && old(b.inPos) <= b.inPos
      reads `eaten, b, b.input
    {
      eaten == old(eaten) + b.input[old(b.inPos)..b.inPos]
    }

    twostate predicate Wrote(b: XzBuf)
      requires old(b.Valid()) && b.Valid() && old(b.outPos) <= b.outPos
      reads `emitted, b, b.output
    {
      emitted == old(emitted) + b.output[old(b.outPos)..b.outPos]
    }

    method KeepRest(out: array<byte>, start: nat, end: nat)
      requires temp.Length == 16 && out != temp && start <= end <= out.Length && end <= start + 4
      modifies `size, temp
      ensures size == end - start && temp[..size] == out[start..end]
    {
      size := end - start;
      ghost var t := temp[..];
      MemCopy(out, start, temp, 0, size);
      OverwriteIs(t, 0, out[start..end]);
    }

    /** The part of xz_dec_bcj_run that lets the next decoder write to the caller's buffer. */
    method Direct(d: XzDecLzma2, b: XzBuf) returns (stop: bool)
      requires Valid() && Fed(d) && Away(d, b) && filtered == 0 && ret == XzOk
      requires size < b.outSize - b.outPos || size == 0
      modifies d, d.rc, d.lzma, d.dict, d.lzma.probs, d.dict.buf, d.temp, b`inPos, b`outPos, b.output
      modifies `x86PrevMask, `pos, `size, `ret, `eaten, `fed, `emitted, temp
      ensures Fed(d) && Away(d, b) && Moved(b) && Read(b) && filtered == 0 && d.dict.size == old(d.dict.size)
      ensures ret == XzOk || ret == XzStreamEnd || ret == XzDataError
      ensures ret == XzOk && !singleCall ==>
        Valid() && Wrote(b) && size <= 4 && if stop then b.UsedUp() else b.outPos + size == b.outSize
      ensures ret != XzOk || singleCall ==> stop
      ensures ret == XzStreamEnd ==> Wrote(b) && emitted == Whole(fed)
      ensures ret == XzDataError ==> Wrong(d.dict.size, old(eaten) + old(b.input[b.inPos..b.inSize]))
    {
      ghost var data, raw := fed, temp[..size];
      var at := b.outPos;
      assert temp[0..size] == temp[..size] && temp[..0] == [];
      Fill(d, b);
      if ret == XzDataError || (ret == XzOk && singleCall) {
        return true;
      }
      stop := FilterOutput(b, at, data, raw);
    }

    // what Fill has put into the caller's buffer, behind `at`, is filtered; what is left over is kept
    method FilterOutput(b: XzBuf, at: nat, ghost data: seq<byte>, ghost raw: seq<byte>) returns (stop: bool)
      requires temp.Length == 16 && size <= 16 && filtered == 0 && b.Valid() && temp != b.output && at <= b.outPos
      requires data <= fed && b.output[at..b.outPos] == raw + fed[|data|..] && (ret == XzOk || ret == XzStreamEnd)
      requires Holds(data, emitted, [], raw, XzOk) && Resumes(data, pos, x86PrevMask)
      modifies b`outPos, b.output, `x86PrevMask, `pos, `size, `emitted, temp
      ensures b.Valid() && at <= b.outPos && emitted == old(emitted) + b.output[at..b.outPos]
      ensures b.output[..at] == old(b.output[..at]) && b.output[b.outSize..] == old(b.output[b.outSize..])
      ensures ret == XzOk ==>
        Valid() && size <= 4 && b.outPos + size == old(b.outPos) && (stop <==> old(b.outPos) < b.outSize)
      ensures ret == XzStreamEnd ==> stop && emitted == Whole(fed)
    {
      ghost var e, o := emitted, b.output[..];
      var end := b.outPos;
      assert data + fed[|data|..] == fed;
      var at' := FilterNew(b.output, at, end, data, fed[|data|..], e, raw);
      TailKept(o, b.output[..], end, b.outSize);
      if ret == XzStreamEnd {
        AllGiven(fed, e + b.output[at..at'], b.output[at'..end]);
        Joined(e, b.output[..], at, at', end);
        emitted := e + b.output[at..end];
        return true;
      }
      KeepRest(b.output, at', end);
      b.outPos := at';
      emitted := e + b.output[at..at'];
      assert temp[0..size] == b.output[at'..end] && temp[..0] == [];
      stop := end < b.outSize;
    }

    // the next decoder fills up temp, behind the bytes left over last time
    method FillTemp(d: XzDecLzma2, b: XzBuf)
      requires temp.Length == 16 && size <= 4 && ret == XzOk && Fed(d) && Away(d, b)
      modifies d, d.rc, d.lzma, d.dict, d.lzma.probs, d.dict.buf, d.temp, b`inPos
      modifies `ret, `eaten, `fed, `size, temp
      ensures Fed(d) && Away(d, b) && Moved(b) && Read(b) && d.dict.size == old(d.dict.size)
      ensures old(size) <= size <= 16 && old(fed) <= fed
      ensures temp[..size] == old(temp[..size]) + fed[|old(fed)|..]
      ensures ret == XzOk || ret == XzStreamEnd || ret == XzDataError
      ensures ret == XzOk ==> b.inPos == b.inSize || size == 16
      ensures ret == XzDataError ==> Wrong(d.dict.size, old(eaten) + old(b.input[b.inPos..b.inSize]))
    {
      ghost var t0 := temp[..];
      var t := new XzBuf(b.input, b.inPos, b.inSize, temp, size, 16);
      ghost var sent := Call(d, t);
      OverwriteIs(t0, size, sent);
      b.inPos := t.inPos;
      size := t.outPos;
    }

    /** The part of xz_dec_bcj_run that lets the next decoder write to temp. */
    method Indirect(d: XzDecLzma2, b: XzBuf) returns (r: XzRet)
      requires Valid() && Fed(d) && Away(d, b) && filtered == 0 && ret == XzOk
      requires b.outPos < b.outSize <= b.outPos + size && size <= 4
      modifies d, d.rc, d.lzma, d.dict, d.lzma.probs, d.dict.buf, d.temp, b`inPos, b`outPos, b.output
      modifies `x86PrevMask, `pos, `size, `filtered, `ret, `eaten, `fed, `emitted, temp
      ensures Fed(d) && Away(d, b) && Moved(b) && Read(b) && d.dict.size == old(d.dict.size)
      ensures r == XzOk || r == XzStreamEnd || r == XzDataError
      ensures r == XzOk ==> Valid() && Resumable() && Wrote(b) && b.UsedUp()
      ensures r == XzStreamEnd ==> ret == XzStreamEnd && Wrote(b) && emitted == Whole(fed)
      ensures r == XzDataError ==> Wrong(d.dict.size, old(eaten) + old(b.input[b.inPos..b.inSize]))
    {
      ghost var data, raw := fed, temp[..size];
      assert temp[0..size] == raw && temp[..0] == [];
      FillTemp(d, b);
      if ret == XzDataError {
        return ret;
      }
      r := TempToOutput(b, data, raw);
    }

    // what FillTemp has put into temp is filtered, and flushed as far as there is room
    method TempToOutput(b: XzBuf, ghost data: seq<byte>, ghost raw: seq<byte>) returns (r: XzRet)
      requires temp.Length == 16 && size <= 16 && (ret == XzOk || ret == XzStreamEnd) && data <= fed
      requires Holds(data, emitted, [], raw, XzOk) && temp[..size] == raw + fed[|data|..]
      requires Resumes(data, pos, x86PrevMask) && b.Valid() && temp != b.input && temp != b.output && b.outSize <= b.outPos + 4
      requires ret == XzOk ==> b.inPos == b.inSize || size == 16
      modifies `x86PrevMask, `pos, `size, `filtered, `emitted, temp, b`outPos, b.output
      ensures Moved(b) && Wrote(b) && (r == XzOk || r == XzStreamEnd)
      ensures r == XzOk ==> Valid() && Resumable() && b.UsedUp()
      ensures r == XzStreamEnd ==> ret == XzStreamEnd && emitted == Whole(fed)
    {
      FilterTemp(data, raw);
      ghost var e, done := emitted, temp[..filtered];
      assert Holds(fed, e, done, temp[filtered..size], ret);
      b.outPos := Flush(b.output, b.outPos, b.outSize);
      assert emitted + temp[..filtered] == e + done;
      r := if filtered > 0 then XzOk else ret;
      assert filtered == 0 ==> temp[..filtered] == [] && emitted + [] == emitted;
    }

    // what FillTemp has put into temp is filtered
    method FilterTemp(ghost data: seq<byte>, ghost raw: seq<byte>)
      requires temp.Length == 16 && size <= 16 && (ret == XzOk || ret == XzStreamEnd) && data <= fed
      requires Holds(data, emitted, [], raw, XzOk) && temp[..size] == raw + fed[|data|..]
      requires Resumes(data, pos, x86PrevMask)
      modifies `x86PrevMask, `pos, `filtered, temp
      ensures Valid() && (ret == XzOk ==> size <= filtered + 4)
    {
      ghost var e := emitted;
      assert temp[0..size] == temp[..size] && data + fed[|data|..] == fed;
      filtered := FilterNew(temp, 0, size, data, fed[|data|..], e, raw);
      ReadyToFlush(fed, e, temp[0..filtered], temp[filtered..size]);
      if ret == XzStreamEnd {
        Joined(e, temp[..], 0, filtered, size);
        filtered := size;
      }
    }

    // the decoder may be called again: the end of the stream was not reported yet
    predicate Resumable()
      reads this
    {
      ret == XzOk || (ret == XzStreamEnd && filtered > 0)
    }

    /** xz_dec_bcj_run. However the calls slice input and output, what has been emitted is the filtered output of
        the LZMA2 decoder, and all of it at the end. It asks for more only when the input or the output space is
        used up, and an error is one of LZMA2. A single call that does not get to the end is not resumed. */
    method Run(d: XzDecLzma2, b: XzBuf) returns (r: XzRet)
      requires Valid() && Resumable() && Fed(d) && Away(d, b)
      modifies d, d.rc, d.lzma, d.dict, d.lzma.probs, d.dict.buf, d.temp, b`inPos, b`outPos, b.output
      modifies `x86PrevMask, `pos, `size, `filtered, `ret, `eaten, `fed, `emitted, temp
      ensures Fed(d) && Away(d, b) && Moved(b) && Read(b) && d.dict.size == old(d.dict.size)
      ensures r == XzOk || r == XzStreamEnd || r == XzDataError
      ensures r == XzOk && !singleCall ==> Valid() && Resumable() && Wrote(b) && b.UsedUp()
      ensures r == XzStreamEnd ==> ret == XzStreamEnd && Wrote(b) && emitted == Whole(fed)
      ensures r == XzDataError ==> Wrong(d.dict.size, old(eaten) + old(b.input[b.inPos..b.inSize]))
    {
      if filtered == 0 {
        r := Decode(d, b);
        return;
      }
      ghost var e, at := emitted, b.outPos;
      var stop;
      stop, r := FlushOutput(b);
      if stop {
        return;
      }
      ghost var a, o := b.outPos, b.output[..];
      r := Decode(d, b);
      Composed(e, o, b.output[..], at, a, b.outPos, b.outSize);
    }

    // the beginning of xz_dec_bcj_run, when filtered bytes are pending
    method FlushOutput(b: XzBuf) returns (stop: bool, r: XzRet)
      requires Valid() && Resumable() && b.Valid() && temp != b.output && temp != b.input
      modifies b`outPos, b.output, `filtered, `size, `emitted, temp
      ensures Moved(b) && Wrote(b) && Valid() && (r == XzOk || r == XzStreamEnd)
      ensures !stop ==> filtered == 0 && ret == XzOk
      ensures stop && r == XzOk ==> Resumable() && b.UsedUp()
      ensures r == XzStreamEnd ==> ret == XzStreamEnd && emitted == Whole(fed)
    {
      b.outPos := Flush(b.output, b.outPos, b.outSize);
      assert filtered == 0 ==> temp[..filtered] == [] && emitted + [] == emitted;
      stop := filtered > 0 || ret == XzStreamEnd;
      r := if filtered > 0 then XzOk else ret;
    }

    // the rest of xz_dec_bcj_run, when no filtered bytes are pending
    method Decode(d: XzDecLzma2, b: XzBuf) returns (r: XzRet)
      requires Valid() && Fed(d) && Away(d, b) && filtered == 0 && ret == XzOk
      modifies d, d.rc, d.lzma, d.dict, d.lzma.probs, d.dict.buf, d.temp, b`inPos, b`outPos, b.output
      modifies `x86PrevMask, `pos, `size, `filtered, `ret, `eaten, `fed, `emitted, temp
      ensures Fed(d) && Away(d, b) && Moved(b) && Read(b) && d.dict.size == old(d.dict.size)
      ensures r == XzOk || r == XzStreamEnd || r == XzDataError
      ensures r == XzOk && !singleCall ==> Valid() && Resumable() && Wrote(b) && b.UsedUp()
      ensures r == XzStreamEnd ==> ret == XzStreamEnd && Wrote(b) && emitted == Whole(fed)
      ensures r == XzDataError ==> Wrong(d.dict.size, old(eaten) + old(b.input[b.inPos..b.inSize]))
    {
      if size >= b.outSize - b.outPos && size > 0 {
        SmallRest(fed, emitted, temp[..filtered], temp[filtered..size]);
        if b.outPos == b.outSize {
          return ret;
        }
        r := Indirect(d, b);
        return;
      }
      ghost var e, e0, at, in0 := emitted, eaten, b.outPos, b.inPos;
      var stop := Direct(d, b);
      if stop || b.outPos == b.outSize {
        return ret;
      }
      ghost var a, o, in1 := b.outPos, b.output[..], b.inPos;
      r := Indirect(d, b);
      Composed(e, o, b.output[..], at, a, b.outPos, b.outSize);
      Joined(e0, b.input[..], in0, in1, b.inPos);
      Joined(e0, b.input[..], in0, in1, b.inSize);
    }
  }

  /** Two decoders of the same stream agree, however differently they were called: what each has emitted is
      a beginning of the filtered stream. */
  lemma EmittedIsPrefix(fed: seq<byte>, data: seq<byte>, e: seq<byte>, done: seq<byte>, raw: seq<byte>, ret: XzRet)
    requires fed <= data && Holds(fed, e, done, raw, ret)
    ensures ret == XzOk ==> e <= Filter(0, 0, data).out <= Whole(data)
    ensures ret == XzStreamEnd && fed == data ==> e <= Whole(data)
  {
    FilterSlices(0, 0, fed, data[|fed|..]);
    assert fed + data[|fed|..] == data;
    if ret == XzStreamEnd && fed == data {
      assert Whole(data)[..|e|] == e;
    } else if ret == XzOk {
      var f := Filter(0, 0, fed);
      assert f.out <= Filter(0, 0, data).out <= Whole(data) && f.out[..|e|] == e;
    }
  }

  lemma SmallRest(data: seq<byte>, e: seq<byte>, done: seq<byte>, raw: seq<byte>)
    requires Holds(data, e, done, raw, XzOk)
    ensures |raw| <= 4
  {
  }

  // what was emitted by two steps, one after the other
  lemma Composed(e: seq<byte>, s: seq<byte>, t: seq<byte>, at: nat, a: nat, b: nat, limit: nat)
    requires at <= a <= b <= limit <= |s| == |t| && s[..a] == t[..a]
    ensures e + s[at..a] + t[a..b] == e + t[at..b] && s[..at] == t[..at]
  {
    assert s[at..a] == s[..a][at..] && t[at..a] == t[..a][at..];
    assert s[..at] == s[..a][..at] && t[..at] == t[..a][..at];
    Joined(e, t, at, a, b);
  }

  lemma ReadyToFlush(data: seq<byte>, e: seq<byte>, done: seq<byte>, raw: seq<byte>)
    requires Holds(data, e + done, [], raw, XzOk)
    ensures Holds(data, e, done, raw, XzOk) && Holds(data, e, done + raw, [], XzStreamEnd)
  {
    assert e + done + [] == e + done && e + (done + raw) == e + done + raw;
    AllGiven(data, e + done, raw);
  }

  lemma Joined(e: seq<byte>, s: seq<byte>, a: nat, b: nat, c: nat)
    requires a <= b <= c <= |s|
    ensures s[a..c] == s[a..b] + s[b..c] && e + s[a..c] == e + s[a..b] + s[b..c]
  {
  }

  // what is the same from `b` on is the same from `c` on
  lemma TailKept(s: seq<byte>, t: seq<byte>, b: nat, c: nat)
    requires |s| == |t| && b <= c <= |s| && s[b..] == t[b..]
    ensures s[c..] == t[c..]
  {
    assert s[c..] == s[b..][c - b..] && t[c..] == t[b..][c - b..];
  }

  // at the end of the stream the bytes left over are given out too
  lemma AllGiven(data: seq<byte>, e: seq<byte>, raw: seq<byte>)
    requires Holds(data, e, [], raw, XzOk)
    ensures e + raw == Whole(data)
  {
    assert e + [] == e;
  }

  // more bytes have been filtered
  lemma HoldsMore(data: seq<byte>, more: seq<byte>, e: seq<byte>, raw: seq<byte>, g: Filtered)
    requires Holds(data, e, [], raw, XzOk)
    requires var f := Filter(0, 0, data); g == Filter(f.mask, |f.out|, raw + more)
    ensures Holds(data + more, e + g.out, [], g.rest, XzOk)
    ensures var f, f' := Filter(0, 0, data), Filter(0, 0, data + more);
      f'.mask == g.mask && |f'.out| == |f.out| + |g.out|
  {
    assert e + [] == e && e + g.out + [] == e + g.out;
    FilterSlices(0, 0, data, more);
  }

  // the parts of a buffer after the filter has rewritten the beginning of one of them
  lemma OverwrittenParts(b: seq<byte>, at: nat, o: seq<byte>, end: nat)
    requires at + |o| <= end <= |b|
    ensures var c := Overwrite(b, at, o);
      && c[at..at + |o|] == o && c[..at] == b[..at] && c[end..] == b[end..]
      && c[at + |o|..end] == b[at..end][|o|..]
  {
    OverwriteIs(b, at, o);
  }

  // a buffer after two writes, one behind the other
  lemma TwoWritten(b: seq<byte>, at: nat, s: seq<byte>, t: seq<byte>, c: seq<byte>, limit: nat)
    requires at + |s| + |t| <= limit <= |b|
    requires c == Overwrite(Overwrite(b, at, s), at + |s|, t)
    ensures c[at..at + |s| + |t|] == s + t && c[..at] == b[..at] && c[limit..] == b[limit..]
  {
    OverwriteTwice(b, at, s, t);
    OverwriteIs(b, at, s + t);
  }

  // what Valid of XzDecBcj says about the bytes
  ghost predicate Holds(data: seq<byte>, emitted: seq<byte>, done: seq<byte>, raw: seq<byte>, ret: XzRet) {
    && (ret == XzOk ==> emitted + done == Filter(0, 0, data).out && raw == Filter(0, 0, data).rest)
    && (ret == XzStreamEnd ==> emitted + done == Whole(data) && raw == [])
  }

  // ... and about the state of the filter
  ghost predicate Resumes(data: seq<byte>, pos: Word, mask: nat) {
    var f := Filter(0, 0, data);
    pos == |f.out| % TWO32 && Faded(mask, 1) == f.mask
  }

  // memmove by `n`
  lemma MovedDown(t: seq<byte>, t': seq<byte>, n: nat, done: nat, size: nat)
    requires done <= size <= |t'| && n + size <= |t|
    requires forall i :: 0 <= i < size ==> t'[i] == t[n + i]
    ensures t[..n] + t'[..done] == t[..n + done] && t'[done..size] == t[n + done..n + size]
  {
  }

  // the mask behind the first byte, or behind the instruction
  lemma Masks(prevMask: nat, d: nat, s: seq<byte>)
    requires d >= 1 && |s| > 4
    ensures var m := Faded(prevMask, d);
      if !IsBranch(s[0]) then Faded(prevMask, d + 1) == AfterFirst(m, s)
      else if Skips(m, s) then Faded(m * 2 + 1, 1) == AfterFirst(m, s)
      else Faded(m, 5) == AfterFirst(m, s)
  {
    Fades(prevMask, d);
  }

  // one byte further, and the masks noted at an opcode
  lemma Fades(m: nat, d: nat)
    requires d >= 1
    ensures Faded(m, d + 1) == Faded(m, d) * 2 % 8
    ensures Faded(m, d) < 8
  {
    Doubled(m);
    Doubled(m * 2);
    Doubled(m * 4);
    assert m * 8 % 8 == 0;
  }

  lemma Doubled(x: nat)
    ensures x % 8 * 2 % 8 == x * 2 % 8
  {
    var q, r := x / 8, x % 8;
    assert x * 2 == r * 2 + 2 * q * 8;
    ModMultiple(r * 2, 2 * q, 8);
  }

  // the mask as it is kept between two calls
  function Shifted(m: nat, d: nat): (r: nat)
    requires d >= 1
    ensures Faded(r, 1) == Faded(m, d)
  {
    if d > 3 then 0 else if d == 3 then m * 4 else if d == 2 then m * 2 else m
  }

  // `out` is the filtered beginning of `s`, and `m` the mask after it
  predicate SoFar(m0: Mask, p: nat, s: seq<byte>, out: seq<byte>, m: Mask) {
    |out| <= |s| && Filter(m0, p, s) == Behind(out, Filter(m, p + |out|, s[|out|..]))
  }

  lemma Starts(m0: Mask, p: nat, s: seq<byte>)
    ensures SoFar(m0, p, s, [], m0)
  {
    BehindNothing(Filter(m0, p, s));
    assert s[0..] == s;
  }

  lemma Continues(m0: Mask, p: nat, s: seq<byte>, out: seq<byte>, m: Mask)
    requires SoFar(m0, p, s, out, m) && |s| - |out| > 4
    ensures var rest := s[|out|..];
      SoFar(m0, p, s, out + FirstOut(m, p + |out|, rest), AfterFirst(m, rest))
  {
    var rest := s[|out|..];
    var o, m' := FirstOut(m, p + |out|, rest), AfterFirst(m, rest);
    FilterIs(m, p + |out|, rest);
    assert rest[|o|..] == s[|out + o|..];
    BehindTwice(out, o, Filter(m', p + |out| + |o|, rest[|o|..]));
  }

  lemma Finishes(m0: Mask, p: nat, s: seq<byte>, out: seq<byte>, m: Mask)
    requires SoFar(m0, p, s, out, m) && |s| - |out| <= 4
    ensures Filter(m0, p, s) == Filtered(out, m, s[|out|..])
  {
    FilterIs(m, p + |out|, s[|out|..]);
    assert out + [] == out;
  }

  // what has not been overwritten yet
  lemma RestKept(b0: seq<byte>, at: nat, size: nat, out: seq<byte>)
    requires at + size <= |b0| && |out| <= size
    ensures Overwrite(b0, at, out)[at + |out|..at + size] == b0[at..at + size][|out|..]
  {
    OverwriteIs(b0, at, out);
  }
}
