/**
 struct dictionary of compat/xz_dec_lzma2.c in multi-call mode: the history buffer is a ring. `hist` is
 everything decoded since the last dictionary reset; the ring refines it.
 */
module Dictionary {
  import opened Words
  import opened LzmaModel
  import opened Memory
  import opened XzApi

  /** Which byte of a history of `n` bytes a ring of `end` cells holds at place `j`, the next byte being
      due at `pos`. */
  ghost function Held(j: nat, pos: nat, end: nat, n: nat): int {
    if j < pos then n - pos + j else n - pos - end + j
  }

  /** The first `k` cells of the ring in a[..end] hold what they should. */
  ghost predicate Cells(a: seq<byte>, end: nat, pos: nat, hist: seq<byte>, k: nat)
    requires k <= |a|
  {
    k == 0 ||
    (&& Cells(a, end, pos, hist, k - 1)
     && 0 <= Held(k - 1, pos, end, |hist|) < |hist|
     && a[k - 1] == hist[Held(k - 1, pos, end, |hist|)])
  }

  lemma {:induction false} CellAt(a: seq<byte>, end: nat, pos: nat, hist: seq<byte>, k: nat, j: nat)
    requires k <= |a| && Cells(a, end, pos, hist, k) && j < k
    ensures 0 <= Held(j, pos, end, |hist|) < |hist| && a[j] == hist[Held(j, pos, end, |hist|)]
    decreases k
  {
    if j < k - 1 {
      CellAt(a, end, pos, hist, k - 1, j);
    }
  }

  lemma {:induction false} AllCells(a: seq<byte>, end: nat, pos: nat, hist: seq<byte>, k: nat)
    requires k <= |a|
    requires forall j :: 0 <= j < k ==>
      0 <= Held(j, pos, end, |hist|) < |hist| && a[j] == hist[Held(j, pos, end, |hist|)]
    ensures Cells(a, end, pos, hist, k)
    decreases k
  {
    if k > 0 {
      AllCells(a, end, pos, hist, k - 1);
    }
  }

  /** The ring in a[..end], filled up to `full`, holds the latest bytes of `hist`. */
  ghost predicate Ring(a: seq<byte>, end: nat, pos: nat, full: nat, hist: seq<byte>) {
    && pos <= full <= end && end <= |a|
    && full == Min(|hist|, end)
    && (full < end ==> pos == full)
    && Cells(a, end, pos, hist, full)
  }

  lemma RingAppend(a: seq<byte>, end: nat, pos: nat, full: nat, hist: seq<byte>, s: seq<byte>)
    requires Ring(a, end, pos, full, hist) && pos + |s| <= end
    ensures Ring(Overwrite(a, pos, s), end, pos + |s|, NewFull(pos + |s|, full), hist + s)
  {
    var a' := Overwrite(a, pos, s);
    var n, pos', full', hist' := |hist|, pos + |s|, NewFull(pos + |s|, full), hist + s;
    OverwriteIs(a, pos, s);
    forall j | 0 <= j < full'
      ensures var h := Held(j, pos', end, |hist'|); 0 <= h < |hist'| && a'[j] == hist'[h]
    {
      if pos <= j < pos' {
        assert a'[j] == s[j - pos];
      } else {
        CellAt(a, end, pos, hist, full, j);
      }
    }
    AllCells(a', end, pos', hist', full');
  }

  lemma RingPut(a: seq<byte>, end: nat, pos: nat, full: nat, hist: seq<byte>, b: byte)
    requires Ring(a, end, pos, full, hist) && pos < end
    ensures Ring(a[pos := b], end, pos + 1, NewFull(pos + 1, full), hist + [b])
  {
    RingAppend(a, end, pos, full, hist, [b]);
    assert Overwrite(a, pos, [b]) == Overwrite(a[pos := b], pos + 1, [b][1..]);
  }

  lemma RingWrap(a: seq<byte>, end: nat, hist: seq<byte>)
    requires Ring(a, end, end, end, hist)
    ensures Ring(a, end, 0, end, hist)
  {
    forall j | 0 <= j < end
      ensures var h := Held(j, 0, end, |hist|); 0 <= h < |hist| && a[j] == hist[h]
    {
      CellAt(a, end, end, hist, end, j);
    }
    AllCells(a, end, 0, hist, end);
  }

  /** The latest bytes of the history lie just before `pos`. */
  lemma RingTail(a: seq<byte>, end: nat, pos: nat, full: nat, hist: seq<byte>, n: nat)
    requires Ring(a, end, pos, full, hist) && n <= pos
    ensures n <= |hist| && a[pos - n..pos] == hist[|hist| - n..]
  {
    var s, t := a[pos - n..pos], hist[|hist| - n..];
    forall i | 0 <= i < n
      ensures s[i] == t[i]
    {
      CellAt(a, end, pos, hist, full, pos - n + i);
    }
  }

  /** The byte `dist + 1` back is found `dist + 1` places before `pos`, around the end of the ring. */
  lemma RingBack(a: seq<byte>, end: nat, pos: nat, full: nat, hist: seq<byte>, dist: nat)
    requires Ring(a, end, pos, full, hist) && dist < full
    ensures var j := Place(pos, dist, end);
      0 <= j < full && a[j] == hist[|hist| - 1 - dist] == ByteBack(hist, dist)
  {
    CellAt(a, end, pos, hist, full, Place(pos, dist, end));
  }

  // the place of the byte `dist + 1` back from `pos`
  function Place(pos: nat, dist: nat, end: nat): int {
    if dist < pos then pos - 1 - dist else pos - 1 - dist + end
  }

  function NewFull(pos: nat, full: nat): nat {
    if full < pos then pos else full
  }

  lemma CopyOne(hist: seq<byte>, dist: nat, n: nat, h: seq<byte>) returns (h': seq<byte>)
    requires dist < |hist| && h == CopyMatch(hist, dist, n)
    ensures h' == h + [h[|h| - 1 - dist]] && h' == CopyMatch(hist, dist, n + 1)
  {
    CopyMatchResumes(hist, dist, n, 1);
    h' := h + [h[|h| - 1 - dist]];
    assert CopyMatch(h, dist, 1) == h';
  }

  /** Two copies in a row are one. */
  lemma CopyMore(h: seq<byte>, out: seq<byte>, at: nat, inp: seq<byte>, i: nat, j: nat, k: nat)
    requires i <= j <= k <= |inp| && at + (k - i) <= |out|
    ensures h + inp[i..j] + inp[j..k] == h + inp[i..k]
    ensures Overwrite(Overwrite(out, at, inp[i..j]), at + (j - i), inp[j..k]) == Overwrite(out, at, inp[i..k])
  {
    assert inp[i..j] + inp[j..k] == inp[i..k];
    OverwriteTwice(out, at, inp[i..j], inp[j..k]);
  }

  class Dict {
    const buf: array<byte>
    var start: nat
    var pos: nat
    var full: nat
    var limit: nat
    var end: nat
    var size: nat
    ghost var hist: seq<byte>
    ghost var laps: nat       // how much of `hist` came before the ring last started over, in units of 16
    ghost var units: nat      // the dictionary size in units of 16

    constructor (buf: array<byte>)
      ensures this.buf == buf
    {
      this.buf := buf;
      start, pos, full, limit, end, size := 0, 0, 0, 0, 0, 0;
      units, hist, laps := 0, [], 0;
    }

    // dict->end of xz_dec_lzma2_reset
    method SetEnd()
      requires 0 < size <= buf.Length && size % 16 == 0
      modifies `end, `units
      ensures SizeOk()
    {
      end, units := size, size / 16;
    }

    ghost predicate SizeOk()
      reads `end, `size, `units
    {
      0 < size == end <= buf.Length && size == 16 * units
    }

    ghost predicate Shape()
      reads `start, `pos, `full, `end, `size, `hist, `laps, `units
    {
      SizeOk() && start <= pos <= full <= end && |hist| == pos + 16 * laps
    }

    ghost predicate Valid()
      reads `start, `pos, `full, `end, `size, `hist, `laps, `units, buf
    {
      Shape() && Ring(buf[..], end, pos, full, hist)
    }

    /** dict_reset */
    method Reset()
      requires SizeOk()
      modifies `start, `pos, `full, `limit, `hist, `laps
      ensures Valid() && hist == [] && start == pos == limit == 0
    {
      start, pos, limit, full := 0, 0, 0, 0;
      hist, laps := [], 0;
    }

    /** dict_limit */
    method Limit(outMax: nat)
      requires Valid()
      modifies `limit
      ensures pos <= limit <= end && limit - pos == Min(end - pos, outMax)
    {
      limit := if end - pos <= outMax then end else pos + outMax;
    }

    /** dict_get: the byte `dist + 1` back, for every valid distance; zero while there is no history. */
    method Get(dist: nat) returns (r: byte)
      requires Valid() && (full == 0 ==> dist == 0) && (full > 0 ==> dist < full)
      requires end > 0
      ensures r == ByteBack(hist, dist)
    {
      var offset := pos - dist - 1;
      if dist >= pos {
        offset := offset + end;
      }
      if full > 0 {
        RingBack(buf[..], end, pos, full, hist, dist);
        r := buf[offset];
      } else {
        r := 0;
      }
    }

    /** dict_put */
    method Put(b: byte)
      requires Valid() && pos < end
      modifies `pos, `full, `hist, buf
      ensures Valid() && hist == old(hist) + [b] && pos == old(pos) + 1
    {
      RingPut(buf[..], end, pos, full, hist, b);
      buf[pos] := b;
      pos := pos + 1;
      if full < pos {
        full := pos;
      }
      hist := hist + [b];
    }

    /** dict_repeat: as much of an LZ77 copy as fits below `limit`. The copy may overlap itself, and the
        source may run across the end of the ring. */
    method Repeat(len: nat, dist: nat) returns (ok: bool, rest: nat)
      requires Valid() && pos < limit <= end && len > 0
      modifies `pos, `full, `hist, buf
      ensures ok <==> dist < |old(hist)| && dist < size
      ensures !ok ==> Valid() && unchanged(this) && unchanged(buf) && rest == len
      ensures ok ==>
        && Valid() && rest == len - Min(old(limit - pos), len)
        && hist == CopyMatch(old(hist), dist, len - rest)
        && pos == old(pos) + (len - rest)
    {
      if dist >= full || dist >= size {
        return false, len;
      }
      var left := Min(limit - pos, len);
      rest := len - left;
      ok := true;
      CopyBack(left, dist);
    }

    /** The loop of dict_repeat. */
    method CopyBack(count: nat, dist: nat)
      requires Valid() && dist < full && pos + count <= end
      modifies `pos, `full, `hist, buf
      ensures Valid() && dist < |old(hist)| && hist == CopyMatch(old(hist), dist, count) && pos == old(pos) + count
    {
      var left: nat, back := count, pos - dist - 1;
      if dist >= pos {
        back := back + end;
      }
      ghost var h0, done: nat := hist, 0;
      while left > 0
        invariant done + left == count && pos == old(pos) + done
        invariant Valid() && dist < full && back == Place(pos, dist, end)
        invariant dist < |h0| && hist == CopyMatch(h0, dist, done)
      {
        ghost var c := CopyOne(h0, dist, done, hist);
        back := CopyByte(back, dist);
        left, done := left - 1, done + 1;
        assert hist == c;
      }
    }

    /** dict->buf[dict->pos++] = dict->buf[back++], with `back` going around the ring. */
    method CopyByte(back: nat, ghost dist: nat) returns (next: nat)
      requires Valid() && dist < full && pos < end && back == Place(pos, dist, end)
      modifies `pos, `full, `hist, buf
      ensures Valid() && dist < full && pos == old(pos) + 1 && next == Place(pos, dist, end)
      ensures dist < |old(hist)| && hist == old(hist) + [old(hist)[|old(hist)| - 1 - dist]]
    {
      RingBack(buf[..], end, pos, full, hist, dist);
      Put(buf[back]);
      next := if back + 1 == end then 0 else back + 1;
    }

    // the bytes in the buffer that have not been handed to the caller yet
    ghost function Pending(): seq<byte>
      requires Valid()
      reads this, buf
    {
      RingTail(buf[..], end, pos, full, hist, pos - start);
      hist[|hist| - (pos - start)..]
    }

    // The dictionary and the caller's buffers are apart.
    ghost predicate Apart(b: XzBuf)
      reads this, b
    {
      b.Valid() && buf != b.input && buf != b.output
    }

    /** dict_flush: hands the pending bytes to the caller. */
    method Flush(b: XzBuf) returns (copySize: nat)
      requires Valid() && Apart(b) && b.outPos + (pos - start) <= b.outSize
      modifies `pos, `start, `laps, b`outPos, b.output
      ensures Valid() && Apart(b) && start == pos && pos < end
      ensures copySize == old(pos - start) && b.outPos == old(b.outPos) + copySize
      ensures b.output[..] == Overwrite(old(b.output[..]), old(b.outPos), old(Pending()))
    {
      copySize := pos - start;
      RingTail(buf[..], end, pos, full, hist, copySize);
      ghost var pending := hist[|hist| - copySize..];
      var from := start;
      if pos == end {
        RingWrap(buf[..], end, hist);
        pos := 0;
        laps := laps + units;
      }
      MemCopy(buf, from, b.output, b.outPos, copySize);
      start := pos;
      b.outPos := b.outPos + copySize;
    }

    /** dict_uncompressed: copies bytes from the input to the dictionary and to the output, as long as
        all three have room. */
    method Uncompressed(b: XzBuf, left: nat) returns (rest: nat)
      requires Valid() && Apart(b) && start == pos && pos < end
      modifies `pos, `full, `start, `hist, `laps, buf, b`inPos, b`outPos, b.output
      ensures Valid() && Apart(b) && start == pos && pos < end
      ensures rest <= left && b.inPos == old(b.inPos) + (left - rest) && b.outPos == old(b.outPos) + (left - rest)
      ensures rest > 0 ==> b.inPos == b.inSize || b.outPos == b.outSize
      ensures b.input[..] == old(b.input[..])
      ensures hist == old(hist) + b.input[..][old(b.inPos)..b.inPos]
      ensures b.output[..] == Overwrite(old(b.output[..]), old(b.outPos), b.input[..][old(b.inPos)..b.inPos])
    {
      rest := left;
      ghost var in0, out0, inp, out := b.inPos, b.outPos, b.input[..], b.output[..];
      ghost var h0 := hist;
      while rest > 0 && b.inPos < b.inSize && b.outPos < b.outSize
        invariant Valid() && Apart(b) && start == pos && pos < end
        invariant 0 <= rest <= left && b.inPos == in0 + (left - rest) && b.outPos == out0 + (left - rest)
        invariant b.input[..] == inp
        invariant hist == h0 + inp[in0..b.inPos]
        invariant b.output[..] == Overwrite(out, out0, inp[in0..b.inPos])
        decreases rest
      {
        rest := CopyRound(b, rest, h0, out, out0, inp, in0);
      }
    }

    /** One round of the loop of dict_uncompressed. */
    method CopyRound(b: XzBuf, left: nat, ghost h0: seq<byte>, ghost out: seq<byte>, ghost out0: nat, ghost inp: seq<byte>, ghost in0: nat)
      returns (rest: nat)
      requires Valid() && Apart(b) && start == pos < end && left > 0 && b.inPos < b.inSize && b.outPos < b.outSize
      requires in0 <= b.inPos && out0 + (b.inPos - in0) == b.outPos <= |out| && b.input[..] == inp
      requires hist == h0 + inp[in0..b.inPos] && b.output[..] == Overwrite(out, out0, inp[in0..b.inPos])
      modifies `pos, `full, `start, `hist, `laps, buf, b`inPos, b`outPos, b.output
      ensures Valid() && Apart(b) && start == pos < end && rest < left
      ensures b.inPos == old(b.inPos) + (left - rest) && b.outPos == old(b.outPos) + (left - rest)
      ensures b.input[..] == inp
      ensures hist == h0 + inp[in0..b.inPos] && b.output[..] == Overwrite(out, out0, inp[in0..b.inPos])
    {
      var copySize := Min(Min(b.inSize - b.inPos, b.outSize - b.outPos), Min(end - pos, left));
      rest := left - copySize;
      CopyMore(h0, out, out0, inp, in0, b.inPos, b.inPos + copySize);
      CopyChunk(b, copySize);
    }

    method CopyChunk(b: XzBuf, copySize: nat)
      requires Valid() && Apart(b) && start == pos
      requires pos + copySize <= end && b.inPos + copySize <= b.inSize && b.outPos + copySize <= b.outSize
      modifies `pos, `full, `start, `hist, `laps, buf, b`inPos, b`outPos, b.output
      ensures Valid() && Apart(b) && start == pos && pos < end
      ensures b.inPos == old(b.inPos) + copySize && b.outPos == old(b.outPos) + copySize
      ensures b.input[..] == old(b.input[..])
      ensures hist == old(hist) + b.input[..][old(b.inPos)..b.inPos]
      ensures b.output[..] == Overwrite(old(b.output[..]), old(b.outPos), b.input[..][old(b.inPos)..b.inPos])
    {
      Append(b.input, b.inPos, copySize);
      MemCopy(b.input, b.inPos, b.output, b.outPos, copySize);
      b.outPos := b.outPos + copySize;
      b.inPos := b.inPos + copySize;
    }

    /** The dictionary's side of that round. */
    method Append(src: array<byte>, from: nat, n: nat)
      requires Valid() && start == pos && pos + n <= end && from + n <= src.Length && src != buf
      modifies `pos, `full, `start, `hist, `laps, buf
      ensures Valid() && start == pos && pos < end
      ensures hist == old(hist) + src[..][from..from + n]
    {
      ghost var s := src[..][from..from + n];
      RingAppend(buf[..], end, pos, full, hist, s);
      MemCopy(src, from, buf, pos, n);
      pos := pos + n;
      if full < pos {
        full := pos;
      }
      hist := hist + s;
      if pos == end {
        RingWrap(buf[..], end, hist);
        pos := 0;
        laps := laps + units;
      }
      start := pos;
    }
  }
}
