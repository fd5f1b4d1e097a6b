/**
 Whole sequences of LZMA symbols: for every sequence that respects the history there is an input that
 the decoder turns back into exactly that history, ending with code == 0 as rc_is_finished demands.
 */
module LzmaEncoding {
  import opened Arithmetic
  import opened Common
  import opened RangeCoder
  import opened Words
  import opened LzmaLayout
  import opened LzmaSymbols
  import opened LzmaRun
  import opened LzmaModel
  import opened LzmaRoundTrip
  import opened LzmaLeaves

  /** Every symbol is in range and repeats from inside the history and the dictionary. */
  ghost predicate ValidSymbols(size: nat, lz: Lz, hist: seq<byte>, os: seq<Outcome>)
    decreases os
  {
    os == [] ||
    (&& OutcomeOk(os[0])
     && Extend(os[0], Update(lz, os[0]).rep0, hist, size).Some?
     && ValidSymbols(size, Update(lz, os[0]), Extend(os[0], Update(lz, os[0]).rep0, hist, size).value, os[1..]))
  }

  /** What the symbols stand for. */
  function Meaning(size: nat, lz: Lz, hist: seq<byte>, os: seq<Outcome>): (Lz, seq<byte>)
    requires ValidSymbols(size, lz, hist, os)
    decreases os
  {
    if os == [] then (lz, hist)
    else
      var lz' := Update(lz, os[0]);
      Meaning(size, lz', Extend(os[0], lz'.rep0, hist, size).value, os[1..])
  }

  lemma SymbolTreeReady(env: Env, o: Outcome)
    requires EnvOk(env) && OutcomeOk(o)
    ensures InTable(SymbolTree(env)) && HasLeaf(SymbolTree(env), o)
  {
    SymbolTreeFits(env);
    FitsInTable(SymbolTree(env), 22, 26);
    SymbolTreeExact(env, o);
  }

  function EncodeSymbol(p: Props, e: Enc, lz: Lz, hist: seq<byte>, o: Outcome): (e': Enc)
    requires PropsOk(p) && EncOk(e) && OutcomeOk(o)
    ensures EncOk(e')
  {
    var t := SymbolTree(EnvOf(p, lz, hist));
    EnvOfOk(p, lz, hist);
    SymbolTreeReady(EnvOf(p, lz, hist), o);
    EncodeTreeOk(t, e, o);
    EncodeTree(t, e, o)
  }

  function EncodeSymbols(c: Config, e: Enc, lz: Lz, hist: seq<byte>, os: seq<Outcome>): (e': Enc)
    requires PropsOk(c.props) && EncOk(e) && ValidSymbols(c.size, lz, hist, os)
    ensures EncOk(e')
    decreases os
  {
    if os == [] then e
    else
      var lz' := Update(lz, os[0]);
      EncodeSymbols(c, EncodeSymbol(c.props, e, lz, hist, os[0]), lz',
                    Extend(os[0], lz'.rep0, hist, c.size).value, os[1..])
  }

  /** Decoding `n` symbols one after the other. */
  function Symbols(c: Config, m: Machine, inp: seq<byte>, n: nat): Option<Machine>
    requires MachineOk(c, m)
    decreases n
  {
    if n == 0 then Some(m)
    else
      match Symbol(c, m, inp)
      case None => None
      case Some(m') => Symbols(c, m', inp, n - 1)
  }

  lemma EncodeSymbolContains(p: Props, e: Enc, lz: Lz, hist: seq<byte>, o: Outcome, inp: seq<byte>)
    requires PropsOk(p) && EncOk(e) && OutcomeOk(o)
    requires Contains(EncodeSymbol(p, e, lz, hist, o), inp)
    ensures Contains(e, inp)
  {
    EnvOfOk(p, lz, hist);
    SymbolTreeReady(EnvOf(p, lz, hist), o);
    EncodeTreeContains(SymbolTree(EnvOf(p, lz, hist)), e, o, inp);
  }

  lemma {:induction false} EncodeSymbolsContains(c: Config, e: Enc, lz: Lz, hist: seq<byte>, os: seq<Outcome>, inp: seq<byte>)
    requires PropsOk(c.props) && EncOk(e) && ValidSymbols(c.size, lz, hist, os)
    requires Contains(EncodeSymbols(c, e, lz, hist, os), inp)
    ensures Contains(e, inp)
    decreases os
  {
    if os != [] {
      var lz' := Update(lz, os[0]);
      EncodeSymbolsContains(c, EncodeSymbol(c.props, e, lz, hist, os[0]), lz',
                            Extend(os[0], lz'.rep0, hist, c.size).value, os[1..], inp);
      EncodeSymbolContains(c.props, e, lz, hist, os[0], inp);
    }
  }

  lemma SymbolRoundTrip(c: Config, e: Enc, m: Machine, o: Outcome, inp: seq<byte>)
    requires MachineOk(c, m) && EncOk(e) && OutcomeOk(o)
    requires Extend(o, Update(m.lz, o).rep0, m.hist, c.size).Some?
    requires InStep(e, m.d, inp) && Contains(EncodeSymbol(c.props, e, m.lz, m.hist, o), inp)
    ensures Symbol(c, m, inp).Some?
    ensures var m' := Symbol(c, m, inp).value;
      && m'.lz == Update(m.lz, o) && m'.hist == Extend(o, Update(m.lz, o).rep0, m.hist, c.size).value
      && InStep(EncodeSymbol(c.props, e, m.lz, m.hist, o), m'.d, inp)
  {
    var env := EnvOf(c.props, m.lz, m.hist);
    SymbolIs(c, m, inp);
    SymbolTreeReady(env, o);
    TreeRoundTrip(SymbolTree(env), e, m.d, o, inp);
  }

  /** Decoding inverts encoding, symbol by symbol: the machine ends with the meaning of the symbols, and
      in step with the encoder, probabilities included. */
  lemma {:induction false} SymbolsRoundTrip(c: Config, e: Enc, m: Machine, os: seq<Outcome>, inp: seq<byte>)
    requires MachineOk(c, m) && EncOk(e) && ValidSymbols(c.size, m.lz, m.hist, os)
    requires InStep(e, m.d, inp) && Contains(EncodeSymbols(c, e, m.lz, m.hist, os), inp)
    ensures Symbols(c, m, inp, |os|).Some?
    ensures var m' := Symbols(c, m, inp, |os|).value;
      && (m'.lz, m'.hist) == Meaning(c.size, m.lz, m.hist, os)
      && InStep(EncodeSymbols(c, e, m.lz, m.hist, os), m'.d, inp)
    decreases os
  {
    if os != [] {
      var lz' := Update(m.lz, os[0]);
      var h := Extend(os[0], lz'.rep0, m.hist, c.size).value;
      var e' := EncodeSymbol(c.props, e, m.lz, m.hist, os[0]);
      EncodeSymbolsContains(c, e', lz', h, os[1..], inp);
      SymbolRoundTrip(c, e, m, os[0], inp);
      var m' := Symbol(c, m, inp).value;
      SymbolsRoundTrip(c, e', m', os[1..], inp);
      FirstSymbol(c, m, m', inp, |os|);
    }
  }

  lemma FirstSymbol(c: Config, m: Machine, m': Machine, inp: seq<byte>, n: nat)
    requires MachineOk(c, m) && n > 0 && Symbol(c, m, inp) == Some(m')
    ensures MachineOk(c, m') && Symbols(c, m, inp, n) == Symbols(c, m', inp, n - 1)
  {
  }

  // ---- finishing the encoding

  /** The `n` base-256 digits of `x`, most significant first. */
  function Digits(x: nat, n: nat): (s: seq<byte>)
    ensures |s| == n
  {
    if n == 0 then [] else Digits(x / 256, n - 1) + [x % 256]
  }

  lemma {:induction false} NumberPrefix(s: seq<byte>, t: seq<byte>, lo: nat, hi: nat)
    requires lo <= hi <= |s| && s <= t
    ensures Number(t, lo, hi) == Number(s, lo, hi)
    decreases hi
  {
    if lo < hi {
      NumberPrefix(s, t, lo, hi - 1);
    }
  }

  lemma {:induction false} DigitsNumber(first: byte, x: nat, n: nat)
    requires x < Pow256(n)
    ensures Number([first] + Digits(x, n), FIRST, FIRST + n) == x
    decreases n
  {
    if n > 0 {
      var s, t := [first] + Digits(x / 256, n - 1), [first] + Digits(x, n);
      assert t == s + [x % 256];
      DigitsNumber(first, x / 256, n - 1);
      NumberPrefix(s, t, FIRST, n);
    }
  }

  // the encoder's interval stays below the largest number that its bytes can write
  ghost predicate Bounded(e: Enc) {
    e.low + e.range <= Pow256(e.count + 4)
  }

  lemma {:induction false} EncodeTreeBounded(t: Tree, e: Enc, o: Outcome)
    requires InTable(t) && HasLeaf(t, o) && EncOk(e) && Bounded(e)
    ensures Bounded(EncodeTree(t, e, o))
    decreases t
  {
    if t.Node? {
      var bit := !HasLeaf(t.zero, o);
      Encode1Ok(t.query, e, bit);
      EncodeTreeBounded(Child(t, bit), Encode1(t.query, e, bit), o);
    }
  }

  lemma {:induction false} EncodeSymbolsBounded(c: Config, e: Enc, lz: Lz, hist: seq<byte>, os: seq<Outcome>)
    requires PropsOk(c.props) && EncOk(e) && ValidSymbols(c.size, lz, hist, os) && Bounded(e)
    ensures Bounded(EncodeSymbols(c, e, lz, hist, os))
    decreases os
  {
    if os != [] {
      var lz' := Update(lz, os[0]);
      EnvOfOk(c.props, lz, hist);
      SymbolTreeReady(EnvOf(c.props, lz, hist), os[0]);
      EncodeTreeBounded(SymbolTree(EnvOf(c.props, lz, hist)), e, os[0]);
      EncodeSymbolsBounded(c, EncodeSymbol(c.props, e, lz, hist, os[0]), lz',
                           Extend(os[0], lz'.rep0, hist, c.size).value, os[1..]);
    }
  }

  // the encoder at the beginning of a chunk
  function FreshEnc(probs: seq<Prob>): Enc { Enc(0, TWO32 - 1, probs, 0) }

  /** The decoder just after rc_read_init, on an input that begins with the five initial bytes. */
  function FreshDec(inp: seq<byte>, probs: seq<Prob>): (d: Dec)
    requires |inp| >= INIT && |probs| == PROBS_TOTAL
    ensures DecOk(d)
  {
    InitialNumber(inp);
    Dec(TWO32 - 1, Number(inp, FIRST, INIT), probs, INIT)
  }

  lemma InitialNumber(inp: seq<byte>)
    requires |inp| >= INIT
    ensures Number(inp, FIRST, INIT) < TWO32
  {
    NumberBelow(inp, FIRST, INIT);
    FourBytes();
  }

  lemma {:induction false} NumberBelow(inp: seq<byte>, lo: nat, hi: nat)
    requires lo <= hi <= |inp|
    ensures Number(inp, lo, hi) < Pow256(hi - lo)
    decreases hi
  {
    if lo < hi {
      NumberBelow(inp, lo, hi - 1);
    }
  }

  lemma FreshInStep(inp: seq<byte>, probs: seq<Prob>)
    requires |probs| == PROBS_TOTAL && Contains(FreshEnc(probs), inp)
    ensures InStep(FreshEnc(probs), FreshDec(inp, probs), inp)
  {
  }

  /** The encoder after a chunk that began with the probabilities `probs`. */
  function EncodedTo(c: Config, probs: seq<Prob>, lz: Lz, hist: seq<byte>, os: seq<Outcome>): (e: Enc)
    requires PropsOk(c.props) && |probs| == PROBS_TOTAL && ValidSymbols(c.size, lz, hist, os)
    ensures |e.probs| == PROBS_TOTAL
  {
    EncNormalize(EncodeSymbols(c, FreshEnc(probs), lz, hist, os))
  }

  /** The bytes that the encoder writes: an ignored one, then the low end of its final interval. */
  function EncodedChunk(c: Config, probs: seq<Prob>, lz: Lz, hist: seq<byte>, os: seq<Outcome>): (s: seq<byte>)
    requires PropsOk(c.props) && |probs| == PROBS_TOTAL && ValidSymbols(c.size, lz, hist, os)
    ensures |s| >= INIT
  {
    var e := EncodedTo(c, probs, lz, hist, os);
    [0] + Digits(e.low, e.count + 4)
  }

  /** Every valid sequence of symbols has an encoding that decodes to its meaning, consumes exactly the
      encoded bytes and leaves code == 0, which is what the end of an LZMA chunk is checked for. The decoder
      ends with the probabilities of the encoder. */
  lemma EncodedChunkDecodes(c: Config, probs: seq<Prob>, lz: Lz, hist: seq<byte>, os: seq<Outcome>)
    requires PropsOk(c.props) && |probs| == PROBS_TOTAL && ValidSymbols(c.size, lz, hist, os)
    requires !StateIsLiteral(lz.state) ==> DistOk(hist, lz.rep0, c.size)
    ensures var inp := EncodedChunk(c, probs, lz, hist, os);
      var m := Machine(FreshDec(inp, probs), lz, hist);
      && Symbols(c, m, inp, |os|).Some?
      && var m' := Symbols(c, m, inp, |os|).value;
         && (m'.lz, m'.hist) == Meaning(c.size, lz, hist, os)
         && Normalize(m'.d, inp).code == 0
         && Normalize(m'.d, inp).pos == |inp|
         && m'.d.probs == EncodedTo(c, probs, lz, hist, os).probs
  {
    var inp := EncodedChunk(c, probs, lz, hist, os);
    var e := EncodeSymbols(c, FreshEnc(probs), lz, hist, os);
    EncodedContains(c, probs, lz, hist, os);
    NormalizeContains(e, inp);
    FromFresh(c, probs, lz, hist, os, inp);
    NormalizeInStep(e, Symbols(c, Machine(FreshDec(inp, probs), lz, hist), inp, |os|).value.d, inp);
  }

  lemma FromFresh(c: Config, probs: seq<Prob>, lz: Lz, hist: seq<byte>, os: seq<Outcome>, inp: seq<byte>)
    requires PropsOk(c.props) && |probs| == PROBS_TOTAL && ValidSymbols(c.size, lz, hist, os)
    requires !StateIsLiteral(lz.state) ==> DistOk(hist, lz.rep0, c.size)
    requires Contains(EncodeSymbols(c, FreshEnc(probs), lz, hist, os), inp)
    ensures var m := Machine(FreshDec(inp, probs), lz, hist);
      && Symbols(c, m, inp, |os|).Some?
      && var m' := Symbols(c, m, inp, |os|).value;
         && (m'.lz, m'.hist) == Meaning(c.size, lz, hist, os)
         && InStep(EncodeSymbols(c, FreshEnc(probs), lz, hist, os), m'.d, inp)
  {
    EncodeSymbolsContains(c, FreshEnc(probs), lz, hist, os, inp);
    FreshInStep(inp, probs);
    SymbolsRoundTrip(c, FreshEnc(probs), Machine(FreshDec(inp, probs), lz, hist), os, inp);
  }

  lemma EncodedContains(c: Config, probs: seq<Prob>, lz: Lz, hist: seq<byte>, os: seq<Outcome>)
    requires PropsOk(c.props) && |probs| == PROBS_TOTAL && ValidSymbols(c.size, lz, hist, os)
    ensures var n, inp := EncodedTo(c, probs, lz, hist, os), EncodedChunk(c, probs, lz, hist, os);
      Contains(n, inp) && Number(inp, FIRST, INIT + n.count) == n.low && |inp| == INIT + n.count
  {
    var n := EncodedTo(c, probs, lz, hist, os);
    FourBytes();
    EncodeSymbolsBounded(c, FreshEnc(probs), lz, hist, os);
    assert n.low < Pow256(n.count + 4);
    DigitsNumber(0, n.low, n.count + 4);
  }

  lemma FourBytes()
    ensures Pow256(4) == TWO32
  {
    assert Pow256(2) == 65536;
  }
}
