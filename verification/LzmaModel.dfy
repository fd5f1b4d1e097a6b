/**
 What LZMA symbols mean: the history they extend, the remembered distances they reorder, and the
 context in which the next one is decoded (compat/xz_dec_lzma2.c, "LZMA").
 */
module LzmaModel {
  import opened Arithmetic
  import opened Common
  import opened RangeCoder
  import opened Words
  import opened LzmaLayout
  import opened LzmaSymbols
  import opened LzmaRun

  // lc, lp and pb of the property byte
  datatype Props = Props(lc: nat, lp: nat, pb: nat)

  ghost predicate PropsOk(p: Props) {
    p.lc + p.lp <= 4 && p.pb <= 4
  }

  // distances of the latest four matches, and the types of the latest symbols
  datatype Lz = Lz(rep0: Word, rep1: Word, rep2: Word, rep3: Word, state: State)

  function LzReset(): Lz { Lz(0, 0, 0, 0, 0) }

  // what lzma_reset fills the tables with: RC_BIT_MODEL_TOTAL / 2
  function FreshProbs(): seq<Prob> { seq(PROBS_TOTAL, _ => 1024) }

  // What the property byte stands for (lzma_props).
  function PropsOf(b: byte): Props {
    Props(b % 9, b / 9 % 5, b / 45)
  }

  predicate PropsByteOk(b: byte) {
    b <= (4 * 5 + 4) * 9 + 8 && b % 9 + b / 9 % 5 <= 4
  }

  /** The property byte counts in base 9, 5 and 5. */
  lemma PropsExact(b: byte, p: Props)
    ensures PropsByteOk(b) && PropsOf(b) == p <==>
      b == (p.pb * 5 + p.lp) * 9 + p.lc && p.lc <= 8 && p.lp <= 4 && p.pb <= 4 && p.lc + p.lp <= 4
  {
  }

  /** A fresh variable leaves both bits the same part of the range, but for less than 2048. */
  lemma FreshOdds(range: Word, i: nat)
    requires i < PROBS_TOTAL
    ensures |FreshProbs()| == PROBS_TOTAL && 0 <= range - 2 * Bound(range, FreshProbs()[i]) < 2048
  {
  }

  /** The byte `dist + 1` back, or 0 before the beginning. */
  function ByteBack(hist: seq<byte>, dist: nat): byte {
    if dist < |hist| then hist[|hist| - 1 - dist] else 0
  }

  /** `n` bytes copied one by one from `dist + 1` back; source and destination may overlap. */
  function CopyMatch(hist: seq<byte>, dist: nat, n: nat): (r: seq<byte>)
    requires dist < |hist|
    ensures |r| == |hist| + n
    ensures hist <= r
    decreases n
  {
    if n == 0 then hist else CopyMatch(hist + [hist[|hist| - 1 - dist]], dist, n - 1)
  }

  /** Every byte of the copy is the one `dist + 1` before it: the copy is periodic. */
  lemma {:induction false} CopyMatchPeriodic(hist: seq<byte>, dist: nat, n: nat, i: nat)
    requires dist < |hist| && |hist| <= i < |hist| + n
    ensures CopyMatch(hist, dist, n)[i] == CopyMatch(hist, dist, n)[i - dist - 1]
    decreases n
  {
    var h := hist + [hist[|hist| - 1 - dist]];
    var r := CopyMatch(h, dist, n - 1);
    if i == |hist| {
      assert r[i] == h[i] && r[i - dist - 1] == h[i - dist - 1];
    } else {
      CopyMatchPeriodic(h, dist, n - 1, i);
    }
  }

  /** A copy cut short and resumed gives the same bytes as one that was not interrupted. */
  lemma {:induction false} CopyMatchResumes(hist: seq<byte>, dist: nat, m: nat, n: nat)
    requires dist < |hist|
    ensures CopyMatch(CopyMatch(hist, dist, m), dist, n) == CopyMatch(hist, dist, m + n)
    decreases m
  {
    if m > 0 {
      CopyMatchResumes(hist + [hist[|hist| - 1 - dist]], dist, m - 1, n);
    }
  }

  /** The history once the pending part of a match is copied. */
  function Completed(hist: seq<byte>, dist: nat, n: nat): seq<byte> {
    if n > 0 && dist < |hist| then CopyMatch(hist, dist, n) else hist
  }

  lemma CompletedResumes(hist: seq<byte>, dist: nat, done: nat, n: nat)
    requires dist < |hist| && dist < |CopyMatch(hist, dist, done)|
    ensures Completed(CopyMatch(hist, dist, done), dist, n) == Completed(hist, dist, done + n)
  {
    CopyMatchResumes(hist, dist, done, n);
    if done == 0 {
      assert CopyMatch(hist, dist, done) == hist;
    }
  }

  function LiteralCoder(p: Props, hist: seq<byte>): nat
    requires PropsOk(p)
  {
    LITERAL + LITERAL_CODER_SIZE * (Shr(ByteBack(hist, 0), 8 - p.lc) + Shl(Low(|hist|, p.lp), p.lc))
  }

  function EnvOf(p: Props, lz: Lz, hist: seq<byte>): Env
    requires PropsOk(p)
  {
    Env(lz.state, Low(|hist|, p.pb), LiteralCoder(p, hist),
        if StateIsLiteral(lz.state) then 0 else ByteBack(hist, lz.rep0))
  }

  lemma LiteralCoderRange(p: Props, prev: byte, n: nat)
    requires PropsOk(p)
    ensures Shr(prev, 8 - p.lc) + Shl(Low(n, p.lp), p.lc) < 16
  {
    assert Pow2(8) == 256 && Pow2(4) == 16;
    ShrBelow(prev, 8 - p.lc, p.lc);
    LowIsMod(n, p.lp);
    ShlBelow(Low(n, p.lp), p.lp, p.lc);
    Pow2Mono(p.lp + p.lc, 4);
  }

  /** A number of k bits, shifted left by n, leaves room for n more bits below 2^(k + n). */
  lemma {:induction false} ShlBelow(x: nat, k: nat, n: nat)
    requires x < Pow2(k)
    ensures Shl(x, n) + Pow2(n) <= Pow2(k + n)
    decreases n
  {
    if n > 0 {
      ShlBelow(x, k, n - 1);
    }
  }

  /** Literal coder indices stay below 16 * 0x300, and position states below 16. */
  lemma EnvOfOk(p: Props, lz: Lz, hist: seq<byte>)
    requires PropsOk(p)
    ensures EnvOk(EnvOf(p, lz, hist))
  {
    LiteralCoderRange(p, ByteBack(hist, 0), |hist|);
    LowIsMod(|hist|, p.pb);
    Pow2Mono(p.pb, 4);
    assert Pow2(4) == 16;
  }

  function Update(lz: Lz, o: Outcome): Lz
    requires OutcomeOk(o)
  {
    match o
    case Lit(_) => lz.(state := StateLiteral(lz.state))
    case ShortRep => lz.(state := StateShortRep(lz.state))
    case Match(_, dist) => Lz(dist, lz.rep0, lz.rep1, lz.rep2, StateMatch(lz.state))
    case LongRep(which, _) =>
      var s := StateLongRep(lz.state);
      if which == 0 then lz.(state := s)
      else if which == 1 then Lz(lz.rep1, lz.rep0, lz.rep2, lz.rep3, s)
      else if which == 2 then Lz(lz.rep2, lz.rep0, lz.rep1, lz.rep3, s)
      else Lz(lz.rep3, lz.rep0, lz.rep1, lz.rep2, s)
  }

  // How many bytes a symbol repeats.
  function RepeatLen(o: Outcome): nat {
    match o
    case Lit(_) => 0
    case ShortRep => 1
    case Match(len, _) => len
    case LongRep(_, len) => len
  }

  ghost predicate DistOk(hist: seq<byte>, dist: nat, size: nat) {
    dist < |hist| && dist < size
  }

  /** The history after a symbol; None when it refers to before the beginning or beyond the dictionary. */
  function Extend(o: Outcome, rep0: nat, hist: seq<byte>, size: nat): Option<seq<byte>> {
    if o.Lit? then Some(hist + [o.value])
    else if rep0 < |hist| && rep0 < size then Some(CopyMatch(hist, rep0, RepeatLen(o)))
    else None
  }

  datatype Config = Config(props: Props, size: nat)
  datatype Machine = Machine(d: Dec, lz: Lz, hist: seq<byte>)

  ghost predicate MachineOk(c: Config, m: Machine) {
    && PropsOk(c.props) && DecOk(m.d)
    && (!StateIsLiteral(m.lz.state) ==> DistOk(m.hist, m.lz.rep0, c.size))
  }

  /** One round of lzma_main: decode a symbol and apply it. The machine stays well formed: every distance
      that the next literal may look up is inside the history and the dictionary. */
  function Symbol(c: Config, m: Machine, inp: seq<byte>): (r: Option<Machine>)
    requires MachineOk(c, m)
    ensures r.Some? ==>
      && MachineOk(c, r.value) && m.hist <= r.value.hist
      && |m.hist| < |r.value.hist| <= |m.hist| + 273
      && m.d.pos <= r.value.d.pos <= m.d.pos + 20
  {
    SealedSymbol(c, m, inp, SEAL)
  }

  function SealedSymbol(c: Config, m: Machine, inp: seq<byte>, seal: nat): (r: Option<Machine>)
    requires MachineOk(c, m)
    ensures r.Some? ==>
      && MachineOk(c, r.value) && m.hist <= r.value.hist
      && |m.hist| < |r.value.hist| <= |m.hist| + 273
      && m.d.pos <= r.value.d.pos <= m.d.pos + 20
    decreases seal, m
  {
    if seal > 0 then SealedSymbol(c, m, inp, seal - 1)
    else
      var env := EnvOf(c.props, m.lz, m.hist);
      EnvOfOk(c.props, m.lz, m.hist);
      SymbolReadsAtMost20(m.d, env, inp);
      var (o, d') := Run(SymbolTree(env), m.d, inp);
      Apply(c, m, o, d')
  }

  lemma SymbolIs(c: Config, m: Machine, inp: seq<byte>)
    requires MachineOk(c, m)
    ensures var env := EnvOf(c.props, m.lz, m.hist);
      && EnvOk(env) && InTable(SymbolTree(env))
      && var (o, d') := Run(SymbolTree(env), m.d, inp);
         OutcomeOk(o) && DecOk(d') && Symbol(c, m, inp) == Apply(c, m, o, d')
  {
    EnvOfOk(c.props, m.lz, m.hist);
    SymbolReadsAtMost20(m.d, EnvOf(c.props, m.lz, m.hist), inp);
    assert SealedSymbol(c, m, inp, 1) == SealedSymbol(c, m, inp, 0);
    assert SealedSymbol(c, m, inp, 2) == SealedSymbol(c, m, inp, 1);
    assert SealedSymbol(c, m, inp, 3) == SealedSymbol(c, m, inp, 2);
  }

  function Apply(c: Config, m: Machine, o: Outcome, d: Dec): (r: Option<Machine>)
    requires MachineOk(c, m) && OutcomeOk(o) && DecOk(d)
    ensures r.Some? ==>
      && MachineOk(c, r.value) && m.hist <= r.value.hist && r.value.d == d
      && |m.hist| < |r.value.hist| <= |m.hist| + 273
  {
    var lz' := Update(m.lz, o);
    match Extend(o, lz'.rep0, m.hist, c.size)
    case None => None
    case Some(h) =>
      Some(Machine(d, lz', h))
  }

  function NormalizeMachine(m: Machine, inp: seq<byte>): Machine {
    m.(d := Normalize(m.d, inp))
  }

  /** One symbol and the normalization after it. Starting from a normalized machine this is what one
      round of lzma_main amounts to, seen from outside. */
  function Round(c: Config, m: Machine, inp: seq<byte>): (r: Option<Machine>)
    requires MachineOk(c, m)
    ensures r.Some? ==>
      && MachineOk(c, r.value) && m.hist <= r.value.hist
      && |m.hist| < |r.value.hist| <= |m.hist| + 273
      && m.d.pos <= r.value.d.pos <= m.d.pos + 21
  {
    match Symbol(c, m, inp)
    case None => None
    case Some(m') => Some(NormalizeMachine(m', inp))
  }

  /** `n` rounds lead from `m` to `m'`, each begun while fewer than `bound` bytes were decoded. */
  ghost predicate Reaches(c: Config, m: Machine, inp: seq<byte>, n: nat, bound: int, m': Machine)
    requires MachineOk(c, m)
    decreases n
  {
    if n == 0 then m' == m
    else |m.hist| < bound && Round(c, m, inp).Some? && Reaches(c, Round(c, m, inp).value, inp, n - 1, bound, m')
  }

  lemma {:induction false} ReachesOk(c: Config, m: Machine, inp: seq<byte>, n: nat, bound: int, m': Machine)
    requires MachineOk(c, m) && Reaches(c, m, inp, n, bound, m')
    ensures MachineOk(c, m') && m.hist <= m'.hist && m.d.pos <= m'.d.pos
    ensures n > 0 ==> |m.hist| < |m'.hist| < bound + 273
    decreases n
  {
    if n > 0 {
      ReachesOk(c, Round(c, m, inp).value, inp, n - 1, bound, m');
    }
  }

  lemma {:induction false} ReachesMore(c: Config, m: Machine, inp: seq<byte>, n: nat, bound: int, m': Machine)
    requires MachineOk(c, m) && Reaches(c, m, inp, n, bound, m')
    requires MachineOk(c, m') && |m'.hist| < bound && Round(c, m', inp).Some?
    ensures Reaches(c, m, inp, n + 1, bound, Round(c, m', inp).value)
    decreases n
  {
    if n > 0 {
      ReachesMore(c, Round(c, m, inp).value, inp, n - 1, bound, m');
    } else {
      assert Reaches(c, Round(c, m, inp).value, inp, 0, bound, Round(c, m, inp).value);
    }
  }

  /** It makes no difference whether the machine was normalized before the symbol. */
  lemma SymbolNormalized(c: Config, m: Machine, inp: seq<byte>)
    requires MachineOk(c, m)
    ensures MachineOk(c, NormalizeMachine(m, inp))
    ensures Symbol(c, NormalizeMachine(m, inp), inp) == Symbol(c, m, inp)
  {
    SymbolIs(c, m, inp);
    SymbolIs(c, NormalizeMachine(m, inp), inp);
    NormalizeFirst(SymbolTree(EnvOf(c.props, m.lz, m.hist)), m.d, inp);
  }

  /** A symbol decoded from a machine that may not be normalized is a round of the normalized one. */
  lemma RoundFrom(c: Config, m: Machine, inp: seq<byte>)
    requires MachineOk(c, m)
    ensures MachineOk(c, NormalizeMachine(m, inp))
    ensures Symbol(c, NormalizeMachine(m, inp), inp) == Symbol(c, m, inp)
    ensures Symbol(c, m, inp).Some? ==>
      Round(c, NormalizeMachine(m, inp), inp) == Some(NormalizeMachine(Symbol(c, m, inp).value, inp))
  {
    SymbolNormalized(c, m, inp);
  }

  /** `n` rounds below `bound` lead from `m` to `last`; unless `ok`, the next symbol is invalid there, no
      further than `lim`. */
  ghost predicate Went(c: Config, m: Machine, inp: seq<byte>, n: nat, bound: int, lim: int, last: Machine, ok: bool, seal: nat)
    decreases seal, m
  {
    if seal > 0 then Went(c, m, inp, n, bound, lim, last, ok, seal - 1) else
    && MachineOk(c, m) && MachineOk(c, last) && Reaches(c, m, inp, n, bound, last)
    && (!ok ==> |last.hist| < bound && last.d.pos <= lim && Symbol(c, last, inp).None?)
  }

  lemma WentIs(c: Config, m: Machine, inp: seq<byte>, n: nat, bound: int, lim: int, last: Machine, ok: bool)
    ensures Went(c, m, inp, n, bound, lim, last, ok, SEAL) <==>
      && MachineOk(c, m) && MachineOk(c, last) && Reaches(c, m, inp, n, bound, last)
      && (!ok ==> |last.hist| < bound && last.d.pos <= lim && Symbol(c, last, inp).None?)
  {
    assert Went(c, m, inp, n, bound, lim, last, ok, 1) <==> Went(c, m, inp, n, bound, lim, last, ok, 0);
    assert Went(c, m, inp, n, bound, lim, last, ok, 2) <==> Went(c, m, inp, n, bound, lim, last, ok, 1);
    assert Went(c, m, inp, n, bound, lim, last, ok, 3) <==> Went(c, m, inp, n, bound, lim, last, ok, 2);
  }

  /** The symbol at `m` is the next round after the one that led to `m`, normalized. */
  lemma WentFurther(c: Config, m0: Machine, inp: seq<byte>, n: nat, bound: int, lim: int, m: Machine)
    requires MachineOk(c, m) && Went(c, m0, inp, n, bound, lim, NormalizeMachine(m, inp), true, SEAL)
    requires |m.hist| < bound && NormalizeMachine(m, inp).d.pos <= lim
    ensures var s := Symbol(c, m, inp);
      if s.Some? then Went(c, m0, inp, n + 1, bound, lim, NormalizeMachine(s.value, inp), true, SEAL)
      else Went(c, m0, inp, n, bound, lim, NormalizeMachine(m, inp), false, SEAL)
  {
    var last, s := NormalizeMachine(m, inp), Symbol(c, m, inp);
    RoundFrom(c, m, inp);
    WentIs(c, m0, inp, n, bound, lim, last, true);
    WentIs(c, m0, inp, n, bound, lim, last, false);
    if s.Some? {
      ReachesMore(c, m0, inp, n, bound, last);
      WentIs(c, m0, inp, n + 1, bound, lim, NormalizeMachine(s.value, inp), true);
    }
  }
}
