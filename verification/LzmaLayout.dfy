/** The layout of the LZMA probability tables and the symbol history machine (compat/xz_lzma2.h). */
module LzmaLayout {
  import opened Arithmetic

  // The probability arrays of struct lzma_dec are contiguous (lzma_reset fills them as one array);
  // these are their offsets in it.
  const STATES: nat := 12
  const LIT_STATES: nat := 7
  const POS_STATES_MAX: nat := 16
  const IS_MATCH: nat := 0
  const IS_REP: nat := IS_MATCH + STATES * POS_STATES_MAX
  const IS_REP0: nat := IS_REP + STATES
  const IS_REP1: nat := IS_REP0 + STATES
  const IS_REP2: nat := IS_REP1 + STATES
  const IS_REP0_LONG: nat := IS_REP2 + STATES
  const DIST_SLOT: nat := IS_REP0_LONG + STATES * POS_STATES_MAX
  const DIST_SPECIAL: nat := DIST_SLOT + 4 * 64
  const DIST_ALIGN: nat := DIST_SPECIAL + 114
  const MATCH_LEN: nat := DIST_ALIGN + 16
  const REP_LEN: nat := MATCH_LEN + LEN_SIZE
  const LITERAL: nat := REP_LEN + LEN_SIZE
  const LITERAL_CODER_SIZE: nat := 0x300
  const PROBS_TOTAL: nat := 1846 + 16 * LITERAL_CODER_SIZE

  // Offsets inside struct lzma_len_dec: choice, choice2, low, mid, high.
  const LEN_CHOICE2: nat := 1
  const LEN_LOW: nat := 2
  const LEN_MID: nat := LEN_LOW + POS_STATES_MAX * 8
  const LEN_HIGH: nat := LEN_MID + POS_STATES_MAX * 8
  const LEN_SIZE: nat := LEN_HIGH + 256

  const MATCH_LEN_MIN: nat := 2
  const DIST_MODEL_START: nat := 4
  const DIST_MODEL_END: nat := 14

  lemma Pow2Mono(m: nat, n: nat)
    requires m <= n
    ensures Pow2(m) <= Pow2(n)
  {
    if m < n {
      Pow2Mono(m, n - 1);
    }
  }

  // x >> n, x << n and the low n bits of x
  function Shr(x: nat, n: nat): nat
    decreases n, x
  {
    if n == 0 then x else Shr(x / 2, n - 1)
  }

  function Shl(x: nat, n: nat): nat
    decreases n, x
  {
    if n == 0 then x else 2 * Shl(x, n - 1)
  }

  function Low(x: nat, n: nat): nat
    decreases n, x
  {
    if n == 0 then 0 else x % 2 + 2 * Low(x / 2, n - 1)
  }

  lemma {:induction false} ShrBelow(x: nat, n: nat, k: nat)
    requires x < Pow2(n + k)
    ensures Shr(x, n) < Pow2(k)
    decreases n
  {
    if n > 0 {
      ShrBelow(x / 2, n - 1, k);
    }
  }

  lemma Regroup(q: nat, p: nat, r: nat, b: nat)
    ensures 2 * (q * p + r) + b == q * (2 * p) + (2 * r + b)
  {
  }

  lemma {:induction false} ShlIsMul(x: nat, n: nat)
    ensures Shl(x, n) == x * Pow2(n)
    decreases n
  {
    if n > 0 {
      ShlIsMul(x, n - 1);
    }
  }

  lemma {:induction false} LowIsMod(x: nat, n: nat)
    ensures Low(x, n) == x % Pow2(n) < Pow2(n)
    decreases n
  {
    if n > 0 {
      LowIsMod(x / 2, n - 1);
      HalfMod(x, Pow2(n - 1));
    }
  }

  lemma HalfMod(x: nat, p: nat)
    requires p > 0
    ensures x % (2 * p) == x % 2 + 2 * (x / 2 % p) < 2 * p
  {
    var q, r := x / 2 / p, x / 2 % p;
    assert x / 2 == q * p + r;
    Regroup(q, p, r, x % 2);
    DivModIs(x, 2 * p, q, 2 * r + x % 2);
  }

  lemma {:induction false} LowOfSum(x: nat, y: nat, n: nat)
    requires n <= 4
    ensures Low(x + 16 * y, n) == Low(x, n)
    decreases n
  {
    LowOfSumStep(x, 16, y, n, 4);
  }

  lemma {:induction false} LowOfSumStep(x: nat, m: nat, y: nat, n: nat, k: nat)
    requires n <= k && m == Pow2(k)
    ensures Low(x + m * y, n) == Low(x, n)
    decreases n
  {
    if n > 0 {
      var h := Pow2(k - 1);
      assert m * y == 2 * (h * y);
      LowOfSumStep(x / 2, h, y, n - 1, k - 1);
    }
  }

  // enum lzma_state, and how each kind of symbol changes it
  type State = s: nat | s < STATES

  function StateLiteral(s: State): State {
    if s <= 3 then 0 else if s <= 9 then s - 3 else s - 6
  }

  function StateMatch(s: State): State { if s < LIT_STATES then 7 else 10 }
  function StateLongRep(s: State): State { if s < LIT_STATES then 8 else 11 }
  function StateShortRep(s: State): State { if s < LIT_STATES then 9 else 11 }
  predicate StateIsLiteral(s: State) { s < LIT_STATES }

  datatype Kind = KLit | KMatch | KLongRep | KShortRep

  function NextState(s: State, k: Kind): State {
    match k
    case KLit => StateLiteral(s)
    case KMatch => StateMatch(s)
    case KLongRep => StateLongRep(s)
    case KShortRep => StateShortRep(s)
  }

  function StateAfter(ks: seq<Kind>): State {
    if ks == [] then 0 else NextState(StateAfter(ks[..|ks| - 1]), ks[|ks| - 1])
  }

  // The kind of the symbol `back` places before the end; the beginning of the data counts as literals.
  function Recent(ks: seq<Kind>, back: nat): Kind {
    if back < |ks| then ks[|ks| - 1 - back] else KLit
  }

  // What the names of enum lzma_state promise: the last few symbols, oldest first.
  function NamedState(ks: seq<Kind>): State {
    if Recent(ks, 0) != KLit then
      var afterLit := Recent(ks, 1) == KLit;
      match Recent(ks, 0)
      case KMatch => if afterLit then 7 else 10
      case KLongRep => if afterLit then 8 else 11
      case _ => if afterLit then 9 else 11
    else if Recent(ks, 1) != KLit then 4 + NonlitOrder(ks, 1)
    else if Recent(ks, 2) != KLit then 1 + NonlitOrder(ks, 2)
    else 0
  }

  // match, repeated match, short repeat; a short repeat right after a non-literal counts as repeated match
  function NonlitOrder(ks: seq<Kind>, back: nat): (r: nat)
    ensures r < 3
  {
    match Recent(ks, back)
    case KMatch => 0
    case KShortRep => if Recent(ks, back + 1) == KLit then 2 else 1
    case _ => 1
  }

  /** The twelve-state history machine computes exactly what its state names say, for every history. */
  lemma {:induction false} StateNamesHistory(ks: seq<Kind>)
    ensures StateAfter(ks) == NamedState(ks)
  {
    if ks != [] {
      var p := ks[..|ks| - 1];
      StateNamesHistory(p);
      forall b: nat
        ensures Recent(ks, b + 1) == Recent(p, b)
      {
      }
      assert Recent(ks, 1) == Recent(p, 0) && Recent(ks, 2) == Recent(p, 1);
      assert Recent(ks, 3) == Recent(p, 2);
      assert NonlitOrder(ks, 2) == NonlitOrder(p, 1);
    }
  }

  /** The states below seven are those right after a literal, for every history. */
  lemma LiteralStates(ks: seq<Kind>)
    ensures StateIsLiteral(StateAfter(ks)) <==> Recent(ks, 0) == KLit
  {
    StateNamesHistory(ks);
  }
}
