/**
 The 32-bit range decoder inverts exact interval coding. `Enc` is a model-side encoder that keeps its
 interval [low, low + range) as an unbounded integer: no carries, no 32-bit window. Any input whose
 leading bytes name a number in the final interval decodes to the very symbols that were encoded.
 */
module LzmaRoundTrip {
  import opened RangeBounds
  import opened RangeCoder
  import opened Words
  import opened LzmaLayout
  import opened LzmaSymbols
  import opened LzmaRun
  import opened LzmaModel

  // `count` is the number of bytes that have left the 32-bit window so far.
  datatype Enc = Enc(low: nat, range: Word, probs: seq<Prob>, count: nat)

  ghost predicate EncOk(e: Enc) {
    RANGE_MIN <= e.range && |e.probs| == PROBS_TOTAL
  }

  function EncNormalize(e: Enc): Enc {
    if e.range < TOP then Enc(e.low * 256, e.range * 256, e.probs, e.count + 1) else e
  }

  function Encode1(q: Query, e: Enc, bit: bool): Enc
    requires q.Adaptive? ==> q.index < |e.probs|
  {
    var n := EncNormalize(e);
    match q
    case Adaptive(i) =>
      var bound := Bound(n.range, n.probs[i]);
      Enc(if bit then n.low + bound else n.low, if bit then n.range - bound else bound,
          n.probs[i := Adapt(n.probs[i], bit)], n.count)
    case Even =>
      var half := n.range / 2;
      Enc(if bit then n.low + half else n.low, half, n.probs, n.count)
  }

  predicate HasLeaf(t: Tree, o: Outcome) {
    match t
    case Leaf(o') => o == o'
    case Node(_, zero, one) => HasLeaf(zero, o) || HasLeaf(one, o)
  }

  /** Encodes the decisions that lead to the leaf `o`. */
  function EncodeTree(t: Tree, e: Enc, o: Outcome): Enc
    requires InTable(t) && HasLeaf(t, o) && |e.probs| == PROBS_TOTAL
  {
    match t
    case Leaf(_) => e
    case Node(q, zero, _) =>
      var bit := !HasLeaf(zero, o);
      EncodeTree(Child(t, bit), Encode1(q, e, bit), o)
  }

  /** The number that the bytes from..to of the input write in base 256. */
  function Number(inp: seq<byte>, from: nat, to: nat): nat
    requires from <= to <= |inp|
  {
    if from == to then 0 else Number(inp, from, to - 1) * 256 + inp[to - 1]
  }

  // Where reading begins: the first of the five initial bytes is ignored.
  const FIRST: nat := 1
  const INIT: nat := 5

  /** The bytes of `inp` that a decoder in step with `e` has read name a number in e's interval. */
  ghost predicate Contains(e: Enc, inp: seq<byte>) {
    && INIT + e.count <= |inp|
    && e.low <= Number(inp, FIRST, INIT + e.count) < e.low + e.range
  }

  /** The decoder holds the distance of the number it has read from the low end of the interval. */
  ghost predicate InStep(e: Enc, d: Dec, inp: seq<byte>) {
    && Contains(e, inp)
    && d.range == e.range && d.probs == e.probs && d.pos == INIT + e.count
    && d.code == Number(inp, FIRST, d.pos) - e.low
  }

  lemma Encode1Ok(q: Query, e: Enc, bit: bool)
    requires EncOk(e) && (q.Adaptive? ==> q.index < PROBS_TOTAL)
    ensures EncOk(Encode1(q, e, bit))
    ensures var n, e' := EncNormalize(e), Encode1(q, e, bit);
      && TOP <= n.range && e'.count == n.count
      && n.low <= e'.low && e'.low + e'.range <= n.low + n.range
  {
    var n := EncNormalize(e);
    if q.Adaptive? {
      var b := Bound(n.range, n.probs[q.index]);
    }
  }

  lemma NormalizeContains(e: Enc, inp: seq<byte>)
    requires Contains(EncNormalize(e), inp)
    ensures Contains(e, inp)
  {
    if e.range < TOP {
      var to := INIT + e.count;
      assert Number(inp, FIRST, to + 1) == Number(inp, FIRST, to) * 256 + inp[to];
    }
  }

  lemma Encode1Contains(q: Query, e: Enc, bit: bool, inp: seq<byte>)
    requires EncOk(e) && (q.Adaptive? ==> q.index < PROBS_TOTAL)
    requires Contains(Encode1(q, e, bit), inp)
    ensures Contains(EncNormalize(e), inp) && Contains(e, inp)
  {
    Encode1Ok(q, e, bit);
    NormalizeContains(e, inp);
  }

  /** Intervals nest, so a number in the final interval lies in every earlier one. */
  lemma {:induction false} EncodeTreeContains(t: Tree, e: Enc, o: Outcome, inp: seq<byte>)
    requires InTable(t) && HasLeaf(t, o) && EncOk(e)
    requires Contains(EncodeTree(t, e, o), inp)
    ensures Contains(e, inp)
    decreases t
  {
    if t.Node? {
      var bit := !HasLeaf(t.zero, o);
      Encode1Ok(t.query, e, bit);
      EncodeTreeContains(Child(t, bit), Encode1(t.query, e, bit), o, inp);
      Encode1Contains(t.query, e, bit, inp);
    }
  }

  lemma {:induction false} EncodeTreeOk(t: Tree, e: Enc, o: Outcome)
    requires InTable(t) && HasLeaf(t, o) && EncOk(e)
    ensures EncOk(EncodeTree(t, e, o)) && EncodeTree(t, e, o).count >= e.count
    decreases t
  {
    if t.Node? {
      var bit := !HasLeaf(t.zero, o);
      Encode1Ok(t.query, e, bit);
      EncodeTreeOk(Child(t, bit), Encode1(t.query, e, bit), o);
    }
  }

  lemma NormalizeInStep(e: Enc, d: Dec, inp: seq<byte>)
    requires InStep(e, d, inp) && Contains(EncNormalize(e), inp)
    ensures InStep(EncNormalize(e), Normalize(d, inp), inp)
  {
    NormalizeExact(d, inp);
    if d.range < TOP {
      assert Number(inp, FIRST, d.pos + 1) == Number(inp, FIRST, d.pos) * 256 + inp[d.pos];
    }
  }

  /** One decision: the decoder takes the branch the encoder took, and stays in step. */
  lemma DecideInStep(q: Query, e: Enc, d: Dec, bit: bool, inp: seq<byte>)
    requires EncOk(e) && (q.Adaptive? ==> q.index < PROBS_TOTAL)
    requires InStep(e, d, inp) && Contains(Encode1(q, e, bit), inp)
    ensures Decide(q, d, inp).0 == bit
    ensures InStep(Encode1(q, e, bit), Decide(q, d, inp).1, inp)
  {
    Encode1Ok(q, e, bit);
    Encode1Contains(q, e, bit, inp);
    NormalizeInStep(e, d, inp);
    var n := Normalize(d, inp);
    if q.Even? {
      HalveExact(n.range, n.code);
    }
  }

  /** Decoding a tree inverts encoding a leaf of it. */
  lemma {:induction false} TreeRoundTrip(t: Tree, e: Enc, d: Dec, o: Outcome, inp: seq<byte>)
    requires InTable(t) && HasLeaf(t, o) && EncOk(e)
    requires InStep(e, d, inp) && Contains(EncodeTree(t, e, o), inp)
    ensures Run(t, d, inp).0 == o
    ensures InStep(EncodeTree(t, e, o), Run(t, d, inp).1, inp)
    decreases t
  {
    if t.Node? {
      var bit := !HasLeaf(t.zero, o);
      var e' := Encode1(t.query, e, bit);
      Encode1Ok(t.query, e, bit);
      EncodeTreeContains(Child(t, bit), e', o, inp);
      DecideInStep(t.query, e, d, bit, inp);
      TreeRoundTrip(Child(t, bit), e', Decide(t.query, d, inp).1, o, inp);
    }
  }
}
