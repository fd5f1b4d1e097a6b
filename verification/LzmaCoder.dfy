/**
 The range decoder of compat/xz_dec_lzma2.c on values: a 32-bit `range`/`code` pair, the flat
 table of adaptive probabilities, and a position in the input. Input beyond the end of `inp`
 reads as zero, as the zero-filled temporary buffer of the decoder does.
 */
module RangeCoder {
  import opened Words
  import opened RangeBounds

  // Adaptive probabilities never leave this interval: see Adapt.
  type Prob = x: int | 31 <= x <= 2017 witness 1024

  datatype Dec = Dec(range: Word, code: Word, probs: seq<Prob>, pos: nat)

  function At(inp: seq<byte>, i: nat): byte {
    if i < |inp| then inp[i] else 0
  }

  /** The probability update of rc_bit, on plain integers: 31 and 2017 are where it comes to rest. */
  function Adapt(p: int, bit: bool): (q: int)
    requires 31 <= p <= 2017
    ensures 31 <= q <= 2017
    ensures bit ==> q <= p && (q == p <==> p == 31)
    ensures !bit ==> q >= p && (q == p <==> p == 2017)
  {
    if bit then p - p / 32 else p + (2048 - p) / 32
  }

  function Normalize(d: Dec, inp: seq<byte>): Dec {
    if d.range < TOP then
      Dec(d.range * 256, (d.code * 256 + At(inp, d.pos)) % TWO32, d.probs, d.pos + 1)
    else d
  }

  lemma MulBetween(q: nat, p: int)
    requires 31 <= p <= 2017
    ensures q * 31 <= q * p <= q * 2017
  {
  }

  /** The part of the range given to a zero bit; both parts are at least 31/2048 of the range. */
  function Bound(range: Word, p: Prob): (b: Word)
    ensures range / 2048 * 31 <= b
    ensures range / 2048 * 31 <= range - b
  {
    var q := range / 2048;
    MulBetween(q, p);
    q * p
  }

  /** rc_bit: one adaptive decision. The subtractions cannot wrap, whatever `code` is. */
  function DecodeBit(d: Dec, i: nat, inp: seq<byte>): (bool, Dec)
    requires i < |d.probs|
  {
    var n := Normalize(d, inp);
    var p := n.probs[i];
    var bound := Bound(n.range, p);
    if n.code < bound then
      (false, Dec(bound, n.code, n.probs[i := Adapt(p, false)], n.pos))
    else
      (true, Dec(n.range - bound, n.code - bound, n.probs[i := Adapt(p, true)], n.pos))
  }

  /** One round of rc_direct: a decision with fixed even odds. `code - half` may wrap, and its top
      bit then selects whether `half` is added back. */
  function DecodeDirect(d: Dec, inp: seq<byte>): (bool, Dec) {
    var n := Normalize(d, inp);
    var half := n.range / 2;
    var wrapped := (n.code - half) % TWO32;
    if wrapped >= 0x8000_0000 then
      (false, Dec(half, (wrapped + half) % TWO32, n.probs, n.pos))
    else
      (true, Dec(half, wrapped, n.probs, n.pos))
  }

  // The range any finished decision leaves behind; enough for one shift to reach TOP again.
  ghost predicate Healthy(d: Dec) {
    RANGE_MIN <= d.range
  }

  lemma DecisionKeepsHealthy(d: Dec, i: nat, inp: seq<byte>)
    requires Healthy(d) && i < |d.probs|
    ensures var n := Normalize(d, inp);
      TOP <= n.range && n.pos <= d.pos + 1
    ensures var (b, d') := DecodeBit(d, i, inp);
      var n := Normalize(d, inp);
      Healthy(d') && d'.range >= n.range / 2048 * 31 && d'.pos == n.pos && |d'.probs| == |d.probs|
    ensures var (b, d') := DecodeDirect(d, inp);
      var n := Normalize(d, inp);
      Healthy(d') && d'.range == n.range / 2 && d'.pos == n.pos && d'.probs == d.probs
  {
    var n := Normalize(d, inp);
    assert TOP <= n.range;
  }

  lemma Wrap(x: int)
    ensures 0 <= x < TWO32 ==> x % TWO32 == x
    ensures -TWO32 <= x < 0 ==> x % TWO32 == x + TWO32
    ensures TWO32 <= x < 2 * TWO32 ==> x % TWO32 == x - TWO32
  {
  }

  lemma NormalizeExact(d: Dec, inp: seq<byte>)
    requires d.code < d.range
    ensures var n := Normalize(d, inp);
      && n.code < n.range
      && (d.range < TOP ==> n.code == d.code * 256 + At(inp, d.pos))
  {
    if d.range < TOP {
      Wrap(d.code * 256 + At(inp, d.pos));
    }
  }

  lemma HalveExact(range: Word, code: Word)
    requires code < range
    ensures var half := range / 2;
      var wrapped := (code - half) % TWO32;
      && (wrapped >= 0x8000_0000 <==> code < half)
      && (code < half ==> (wrapped + half) % TWO32 == code)
      && (code >= half ==> wrapped == code - half)
  {
    var half := range / 2;
    Wrap(code - half);
    Wrap((code - half) % TWO32 + half);
  }

  /** From code < range nothing is lost to the 32-bit width: normalization and adaptive decisions
      keep code < range, a direct decision keeps code <= range and reaches it exactly from an odd
      range with the largest code. */
  lemma CodeBelowRange(d: Dec, i: nat, inp: seq<byte>)
    requires Healthy(d) && i < |d.probs| && d.code < d.range
    ensures DecodeBit(d, i, inp).1.code < DecodeBit(d, i, inp).1.range
    ensures var n := Normalize(d, inp);
      var (b, d') := DecodeDirect(d, inp);
      && d'.code <= d'.range
      && (b <==> n.code >= n.range / 2)
      && d'.code == n.code - (if b then n.range / 2 else 0)
      && (d'.code == d'.range <==> n.range % 2 == 1 && n.code == n.range - 1)
  {
    BitBelowRange(d, i, inp);
    NormalizeExact(d, inp);
    var n := Normalize(d, inp);
    HalveExact(n.range, n.code);
  }

  lemma BitBelowRange(d: Dec, i: nat, inp: seq<byte>)
    requires Healthy(d) && i < |d.probs| && d.code < d.range
    ensures DecodeBit(d, i, inp).1.code < DecodeBit(d, i, inp).1.range
  {
    NormalizeExact(d, inp);
  }

  /** A probability counts 2048ths of the range that belong to a zero bit. */
  lemma OddsAre(range: Word, p: Prob)
    ensures 2048 * Bound(range, p) <= range * p < 2048 * (Bound(range, p) + p)
  {
    var q, r := range / 2048, range % 2048;
    assert range == 2048 * q + r;
    assert range * p == 2048 * (q * p) + r * p;
    assert 0 <= r * p < 2048 * p;
  }

  /** After a decision the probability has moved a 32nd of the way to the bit, rounded down. */
  lemma Learns(p: Prob, bit: bool)
    ensures var q := Adapt(p, bit);
      if bit then 32 * (p - q) <= p < 32 * (p - q) + 32 else 32 * (q - p) <= 2048 - p < 32 * (q - p) + 32
  {
  }

  /** The next byte is taken in exactly when the range is below 2^24, which leaves room for it. */
  lemma TakesByte(d: Dec, inp: seq<byte>)
    ensures var n := Normalize(d, inp);
      if d.range < 0x100_0000 then n.pos == d.pos + 1 && n.range == 0x100 * d.range < TWO32 && n.code % 0x100 == At(inp, d.pos)
      else n == d
    ensures d.code < 0x100_0000 && d.range < 0x100_0000 ==> Normalize(d, inp).code == 0x100 * d.code + At(inp, d.pos)
  {
    var x := d.code * 256 + At(inp, d.pos);
    assert x % TWO32 == x - x / TWO32 * TWO32;
    assert TWO32 == 256 * 0x100_0000;
  }

  /** The corner rc_direct leaves: an odd range with the largest code makes code equal to range,
      so strictness is lost. */
  lemma DirectReachesRange()
    ensures var d := Dec(0x100_0001, 0x100_0000, [], 0);
      d.code < d.range && DecodeDirect(d, []).1.code == DecodeDirect(d, []).1.range
  {
  }
}
