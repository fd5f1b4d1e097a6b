/**
 The LZMA symbol layer (compat/xz_lzma2.h, compat/xz_dec_lzma2.c) as a decision tree: every inner
 node is one decision of the range decoder, every leaf a decoded symbol. `SymbolTree` is put together
 from the shapes the C code decodes with: bit trees, reversed bit trees and direct bits.
 */
module LzmaSymbols {
  import opened Arithmetic
  import opened Words
  import opened LzmaLayout

  // What stays fixed while one symbol is decoded: the state, dict.pos masked by pos_mask, the
  // literal coder chosen by position and previous byte, and the byte a mismatch is compared with.
  datatype Env = Env(state: State, posState: nat, literal: nat, matchByte: byte)

  ghost predicate EnvOk(env: Env) {
    && env.posState < POS_STATES_MAX
    && LITERAL <= env.literal && env.literal + LITERAL_CODER_SIZE <= PROBS_TOTAL
  }

  datatype Outcome =
    | Lit(value: byte)
    | ShortRep
    | Match(len: nat, dist: nat)
    | LongRep(which: nat, len: nat)

  ghost predicate LenOk(len: nat) {
    2 <= len <= 273
  }

  ghost predicate OutcomeOk(o: Outcome) {
    match o
    case Lit(_) => true
    case ShortRep => true
    case Match(len, dist) => LenOk(len) && dist < TWO32
    case LongRep(which, len) => which < 4 && LenOk(len)
  }

  // An adaptive decision uses the probability at `index`; an even one is a direct bit.
  datatype Query = Adaptive(index: nat) | Even
  datatype Tree = Leaf(out: Outcome) | Node(query: Query, zero: Tree, one: Tree)

  function Child(t: Tree, bit: bool): Tree
    requires t.Node?
  {
    if bit then t.one else t.zero
  }

  // ---- the shapes

  /** rc_bittree: `bits` more bits, most significant first, appended to `symbol`. */
  function BitTree(base: nat, symbol: nat, bits: nat, k: nat -> Tree): Tree
    decreases bits, base
  {
    if bits == 0 then k(symbol)
    else Node(Adaptive(base + symbol),
              BitTree(base, 2 * symbol, bits - 1, k), BitTree(base, 2 * symbol + 1, bits - 1, k))
  }

  /** rc_bittree_reverse: bits i..n-1 of `dest`, least significant first. */
  function ReverseTree(base: int, symbol: nat, i: nat, n: nat, dest: nat, k: nat -> Tree): Tree
    requires base + symbol >= 0
    decreases n - i, base
  {
    if i >= n then k(dest)
    else Node(Adaptive(base + symbol),
              ReverseTree(base, 2 * symbol, i + 1, n, dest, k),
              ReverseTree(base, 2 * symbol + 1, i + 1, n, dest + Pow2(i), k))
  }

  /** rc_direct: `left` direct bits appended to `dest`. */
  function EvenTree(dest: nat, left: nat, k: nat -> Tree): Tree
    decreases left, dest
  {
    if left == 0 then k(dest)
    else Node(Even, EvenTree(2 * dest, left - 1, k), EvenTree(2 * dest + 1, left - 1, k))
  }

  // match_byte & offset, for offset 0 or 0x100
  function MatchBit(matchByte: nat, offset: nat): nat {
    if offset == 0 then 0 else matchByte / 256 % 2 * 256
  }

  /** The second loop of lzma_literal: the bits of the literal, as long as they agree with the match
      byte looked up in the section that the match byte selects. */
  function MatchedTree(base: nat, symbol: nat, bits: nat, matchByte: nat, offset: nat): Tree
    decreases bits, base
  {
    if bits == 0 then LitLeaf(symbol)
    else
      var m := MatchBit(matchByte, offset);
      Node(Adaptive(base + offset + m + symbol),
           MatchedTree(base, 2 * symbol, bits - 1, 2 * matchByte, if m == 0 then offset else 0),
           MatchedTree(base, 2 * symbol + 1, bits - 1, 2 * matchByte, m))
  }

  function LitLeaf(symbol: nat): Tree { Leaf(Lit(symbol % 256)) }
  function LitLeaves(): nat -> Tree { (s: nat) => LitLeaf(s) }

  // ---- lengths

  // The three sections of a length coder: number of bits, first length, offset of their probabilities.
  function SectionBits(section: nat): nat { if section == 2 then 8 else 3 }
  function SectionMin(section: nat): nat { MATCH_LEN_MIN + 8 * section }
  function SectionBase(section: nat, posState: nat): nat {
    if section == 0 then LEN_LOW + posState * 8
    else if section == 1 then LEN_MID + posState * 8
    else LEN_HIGH
  }

  function SectionTree(base: nat, posState: nat, section: nat, k: nat -> Tree): Tree {
    BitTree(base + SectionBase(section, posState), 1, SectionBits(section), LenOf(section, k))
  }

  function LenOf(section: nat, k: nat -> Tree): nat -> Tree {
    (s: nat) => k(LenFrom(section, s))
  }

  // lzma.len += rc_bittree(...) - limit
  function LenFrom(section: nat, symbol: nat): nat {
    if symbol >= Pow2(SectionBits(section)) then SectionMin(section) + symbol - Pow2(SectionBits(section)) else 0
  }

  /** lzma_len: `choice` tells the first section from the rest, `choice2` the second from the third. */
  function LenTree(base: nat, posState: nat, section: nat, k: nat -> Tree): Tree
    decreases 2 - section, base
  {
    if section >= 2 then SectionTree(base, posState, 2, k)
    else Node(Adaptive(base + section), SectionTree(base, posState, section, k), LenTree(base, posState, section + 1, k))
  }

  // ---- distances

  function DistState(len: nat): nat {
    if len < MATCH_LEN_MIN then 0 else if len < 4 + MATCH_LEN_MIN then len - MATCH_LEN_MIN else 3
  }

  // How many bits of a distance its slot leaves open, and the bits above them.
  function SlotExtra(slot: nat): nat { if slot < DIST_MODEL_START then 0 else slot / 2 - 1 }
  function SlotTop(slot: nat): nat { 2 + slot % 2 }
  function SlotStart(slot: nat): nat {
    if slot < DIST_MODEL_START then slot else SlotTop(slot) * Pow2(SlotExtra(slot))
  }

  function MatchLeaf(len: nat): nat -> Tree {
    (dist: nat) => Leaf(Match(len, dist))
  }

  function AlignTree(len: nat): nat -> Tree {
    (high: nat) => ReverseTree(DIST_ALIGN, 1, 0, 4, high * 16, MatchLeaf(len))
  }

  function SpecialBase(slot: nat): int { DIST_SPECIAL + SlotStart(slot) - slot - 1 }

  /** The distance, once its slot is known. */
  function DistTree(len: nat, slot: nat): Tree {
    if slot < DIST_MODEL_START then MatchLeaf(len)(slot)
    else if slot < DIST_MODEL_END then
      ReverseTree(SpecialBase(slot), 1, 0, SlotExtra(slot), SlotStart(slot), MatchLeaf(len))
    else EvenTree(SlotTop(slot), SlotExtra(slot) - 4, AlignTree(len))
  }

  function AfterSlot(len: nat): nat -> Tree {
    (symbol: nat) => DistTree(len, if symbol >= 64 then symbol - 64 else 0)
  }

  function SlotTree(len: nat): Tree {
    BitTree(DIST_SLOT + DistState(len) * 64, 1, 6, AfterSlot(len))
  }

  // ---- symbols

  function SlotTrees(): nat -> Tree {
    (len: nat) => SlotTree(len)
  }

  function MatchTree(env: Env): Tree {
    LenTree(MATCH_LEN, env.posState, 0, SlotTrees())
  }

  function RepLeaf(which: nat): nat -> Tree {
    (len: nat) => Leaf(LongRep(which, len))
  }

  function RepLenTree(env: Env, which: nat): Tree {
    LenTree(REP_LEN, env.posState, 0, RepLeaf(which))
  }

  /** lzma_rep_match */
  function RepTree(env: Env): Tree {
    Node(Adaptive(IS_REP0 + env.state),
         Node(Adaptive(IS_REP0_LONG + env.state * POS_STATES_MAX + env.posState),
              Leaf(ShortRep),
              RepLenTree(env, 0)),
         Node(Adaptive(IS_REP1 + env.state),
              RepLenTree(env, 1),
              Node(Adaptive(IS_REP2 + env.state), RepLenTree(env, 2), RepLenTree(env, 3))))
  }

  /** lzma_literal */
  function LiteralTree(env: Env): Tree {
    if StateIsLiteral(env.state) then BitTree(env.literal, 1, 8, LitLeaves())
    else MatchedTree(env.literal, 1, 8, env.matchByte * 2, 0x100)
  }

  /** One round of lzma_main. */
  function SymbolTree(env: Env): Tree {
    Node(Adaptive(IS_MATCH + env.state * POS_STATES_MAX + env.posState),
         LiteralTree(env),
         Node(Adaptive(IS_REP + env.state), MatchTree(env), RepTree(env)))
  }

  // ---- budgets

  /** `t` takes at most `a` adaptive and `d` direct decisions, all inside the probability table, and
      its leaves are in range. The slots below 128 take one adaptive decision more than the others,
      but no direct ones: an adaptive decision may be traded for the 26 direct ones. */
  ghost predicate Fits(t: Tree, a: nat, d: nat) {
    match t
    case Leaf(o) => OutcomeOk(o)
    case Node(Adaptive(i), zero, one) =>
      && i < PROBS_TOTAL && a >= 1
      && (Fits(zero, a - 1, d) || (d == 26 && a >= 2 && Fits(zero, a, 0)))
      && (Fits(one, a - 1, d) || (d == 26 && a >= 2 && Fits(one, a, 0)))
    case Node(Even, zero, one) => a >= 1 && d >= 1 && Fits(zero, a, d - 1) && Fits(one, a, d - 1)
  }

  ghost predicate FitsTraded(t: Tree, a: nat, d: nat) {
    Fits(t, a, d) || (d == 26 && a >= 1 && Fits(t, a + 1, 0))
  }

  lemma FitsMore(t: Tree, a: nat, d: nat, a': nat, d': nat)
    requires Fits(t, a, d) && a <= a' && d <= d' <= 26 && (d == 26 ==> d' == 26)
    ensures Fits(t, a', d')
  {
  }

  // `s` can come out of a bit tree standing at `symbol` with `bits` bits to go.
  predicate Under(symbol: nat, bits: nat, s: nat)
    decreases bits, s
  {
    if bits == 0 then s == symbol
    else Under(2 * symbol, bits - 1, s) || Under(2 * symbol + 1, bits - 1, s)
  }

  lemma UnderRange(symbol: nat, depth: nat, bits: nat, s: nat)
    requires Pow2(depth) <= symbol < Pow2(depth + 1) && Under(symbol, bits, s)
    ensures Pow2(depth + bits) <= s < Pow2(depth + bits + 1)
    decreases bits
  {
    if bits > 0 {
      if Under(2 * symbol, bits - 1, s) {
        UnderRange(2 * symbol, depth + 1, bits - 1, s);
      } else {
        UnderRange(2 * symbol + 1, depth + 1, bits - 1, s);
      }
    }
  }

  lemma {:induction false} BitTreeFits(base: nat, symbol: nat, depth: nat, bits: nat, k: nat -> Tree, a: nat, d: nat)
    requires forall s: nat :: Under(symbol, bits, s) ==> FitsTraded(k(s), a, d)
    requires bits >= 1 && symbol < Pow2(depth + 1) && base + Pow2(depth + bits) <= PROBS_TOTAL
    ensures Fits(BitTree(base, symbol, bits, k), a + bits, d)
    decreases bits
  {
    Pow2Mono(depth + 1, depth + bits);
    if bits == 1 {
      assert Under(2 * symbol, 0, 2 * symbol) && Under(2 * symbol + 1, 0, 2 * symbol + 1);
      assert Under(symbol, 1, 2 * symbol) && Under(symbol, 1, 2 * symbol + 1);
    } else {
      BitTreeFits(base, 2 * symbol, depth + 1, bits - 1, k, a, d);
      BitTreeFits(base, 2 * symbol + 1, depth + 1, bits - 1, k, a, d);
    }
  }

  lemma {:induction false} ReverseTreeFits(base: int, symbol: nat, i: nat, n: nat, top: nat, rest: nat, len: nat, a: nat)
    requires i <= n && LenOk(len) && top + Pow2(n) <= TWO32
    requires base + symbol >= 0 && Pow2(i) <= symbol < Pow2(i + 1) && rest < Pow2(i)
    requires base + Pow2(n) <= PROBS_TOTAL && n - i <= a
    ensures Fits(ReverseTree(base, symbol, i, n, top + rest, MatchLeaf(len)), a, 0)
    decreases n - i
  {
    if i < n {
      Pow2Mono(i + 1, n);
      ReverseTreeFits(base, 2 * symbol, i + 1, n, top, rest, len, a - 1);
      ReverseTreeFits(base, 2 * symbol + 1, i + 1, n, top, rest + Pow2(i), len, a - 1);
      assert top + (rest + Pow2(i)) == top + rest + Pow2(i);
    } else {
      assert rest < Pow2(n);
    }
  }

  lemma {:induction false} EvenTreeFits(dest: nat, left: nat, len: nat)
    requires LenOk(len) && (dest + 1) * Pow2(left) <= 0x1000_0000
    ensures Fits(EvenTree(dest, left, AlignTree(len)), 4, left)
    decreases left
  {
    if left == 0 {
      assert Pow2(0) == 1 && Pow2(1) == 2 && Pow2(4) == 16;
      ReverseTreeFits(DIST_ALIGN, 1, 0, 4, dest * 16, 0, len, 4);
      assert AlignTree(len)(dest) == ReverseTree(DIST_ALIGN, 1, 0, 4, dest * 16, MatchLeaf(len));
    } else {
      EvenRange(dest, Pow2(left - 1));
      EvenTreeFits(2 * dest, left - 1, len);
      EvenTreeFits(2 * dest + 1, left - 1, len);
    }
  }

  lemma EvenRange(dest: nat, p: nat)
    ensures (2 * dest + 1) * p <= (2 * dest + 2) * p == (dest + 1) * (2 * p)
  {
  }

  lemma {:induction false} MatchedTreeFits(base: nat, symbol: nat, depth: nat, bits: nat, matchByte: nat, offset: nat)
    requires symbol < Pow2(depth + 1) && depth + bits == 8
    requires (offset == 0 || offset == 0x100) && base + LITERAL_CODER_SIZE <= PROBS_TOTAL
    ensures Fits(MatchedTree(base, symbol, bits, matchByte, offset), bits, 0)
    decreases bits
  {
    if bits > 0 {
      Pow2Mono(depth + 1, 8);
      assert Pow2(8) == 256;
      var m := MatchBit(matchByte, offset);
      MatchedTreeFits(base, 2 * symbol, depth + 1, bits - 1, 2 * matchByte, if m == 0 then offset else 0);
      MatchedTreeFits(base, 2 * symbol + 1, depth + 1, bits - 1, 2 * matchByte, m);
    }
  }

  lemma LiteralTreeFits(env: Env)
    requires EnvOk(env)
    ensures Fits(LiteralTree(env), 8, 0)
  {
    assert Pow2(0) == 1 && Pow2(1) == 2 && Pow2(8) == 256;
    if StateIsLiteral(env.state) {
      BitTreeFits(env.literal, 1, 0, 8, LitLeaves(), 0, 0);
    } else {
      MatchedTreeFits(env.literal, 1, 0, 8, env.matchByte * 2, 0x100);
    }
  }

  lemma SlotPowers()
    ensures Pow2(0) == 1 && Pow2(1) == 2 && Pow2(2) == 4 && Pow2(3) == 8 && Pow2(4) == 16 && Pow2(5) == 32
    ensures Pow2(26) == 0x400_0000
  {
    Pow2Add(13, 13);
    assert Pow2(13) == 8192;
  }

  /** The cells of dist_special used by a slot. Different slots use different cells, all in bounds. */
  lemma SpecialCells(slot: nat)
    requires DIST_MODEL_START <= slot < DIST_MODEL_END
    ensures 1 <= SlotExtra(slot) <= 5
    ensures DIST_SPECIAL <= SpecialBase(slot) + 1
    ensures SpecialBase(slot) + Pow2(SlotExtra(slot)) <= DIST_ALIGN
    ensures slot + 1 < DIST_MODEL_END ==> SpecialBase(slot) + Pow2(SlotExtra(slot)) == SpecialBase(slot + 1) + 1
    ensures SlotStart(slot) + Pow2(SlotExtra(slot)) <= 128
  {
    SlotTable();
    assert slot == 4 || slot == 5 || slot == 6 || slot == 7 || slot == 8 || slot == 9 || slot == 10
        || slot == 11 || slot == 12 || slot == 13;
  }

  // first distance and number of open bits of the slots below 128
  lemma SlotTable()
    ensures SlotStart(4) == 4 && SlotStart(5) == 6 && SlotExtra(4) == SlotExtra(5) == 1
    ensures SlotStart(6) == 8 && SlotStart(7) == 12 && SlotExtra(6) == SlotExtra(7) == 2
    ensures SlotStart(8) == 16 && SlotStart(9) == 24 && SlotExtra(8) == SlotExtra(9) == 3
    ensures SlotStart(10) == 32 && SlotStart(11) == 48 && SlotExtra(10) == SlotExtra(11) == 4
    ensures SlotStart(12) == 64 && SlotStart(13) == 96 && SlotExtra(12) == SlotExtra(13) == 5
    ensures Pow2(0) == 1 && Pow2(1) == 2 && Pow2(2) == 4 && Pow2(3) == 8 && Pow2(4) == 16 && Pow2(5) == 32
  {
  }

  lemma DistTreeFits(len: nat, slot: nat)
    requires LenOk(len) && slot < 64
    ensures FitsTraded(DistTree(len, slot), 4, 26)
  {
    SlotPowers();
    if slot < DIST_MODEL_START {
    } else if slot < DIST_MODEL_END {
      SpecialCells(slot);
      ReverseTreeFits(SpecialBase(slot), 1, 0, SlotExtra(slot), SlotStart(slot), 0, len, 5);
    } else {
      var left := SlotExtra(slot) - 4;
      Pow2Mono(left, 26);
      EvenTreeFits(SlotTop(slot), left, len);
      FitsMore(DistTree(len, slot), 4, left, 4, 26);
    }
  }

  lemma SlotTreeFits(len: nat)
    requires LenOk(len)
    ensures Fits(SlotTree(len), 10, 26)
  {
    assert Pow2(0) == 1 && Pow2(1) == 2 && Pow2(6) == 64;
    forall s: nat | Under(1, 6, s)
      ensures FitsTraded(AfterSlot(len)(s), 4, 26)
    {
      UnderRange(1, 0, 6, s);
      assert 64 <= s < 128;
      DistTreeFits(len, s - 64);
    }
    BitTreeFits(DIST_SLOT + DistState(len) * 64, 1, 0, 6, AfterSlot(len), 4, 26);
  }

  lemma SectionTreeFits(base: nat, posState: nat, section: nat, k: nat -> Tree, a: nat, d: nat)
    requires posState < POS_STATES_MAX && section < 3 && base + LEN_SIZE <= PROBS_TOTAL
    requires forall len :: LenOk(len) ==> Fits(k(len), a, d)
    ensures Fits(SectionTree(base, posState, section, k), a + SectionBits(section), d)
  {
    assert Pow2(0) == 1 && Pow2(1) == 2 && Pow2(3) == 8 && Pow2(8) == 256;
    var n := SectionBits(section);
    forall s: nat | Under(1, n, s)
      ensures Fits(LenOf(section, k)(s), a, d)
    {
      UnderRange(1, 0, n, s);
      assert LenOk(LenFrom(section, s));
    }
    BitTreeFits(base + SectionBase(section, posState), 1, 0, n, LenOf(section, k), a, d);
  }

  lemma LenTreeFits(base: nat, posState: nat, k: nat -> Tree, a: nat, d: nat)
    requires posState < POS_STATES_MAX && base + LEN_SIZE <= PROBS_TOTAL && d <= 26
    requires forall len :: LenOk(len) ==> Fits(k(len), a, d)
    ensures Fits(LenTree(base, posState, 0, k), a + 10, d)
  {
    SectionTreeFits(base, posState, 0, k, a, d);
    SectionTreeFits(base, posState, 1, k, a, d);
    SectionTreeFits(base, posState, 2, k, a, d);
    FitsMore(SectionTree(base, posState, 0, k), a + 3, d, a + 9, d);
    FitsMore(SectionTree(base, posState, 1, k), a + 3, d, a + 8, d);
    assert LenTree(base, posState, 2, k) == SectionTree(base, posState, 2, k);
    assert Fits(LenTree(base, posState, 1, k), a + 9, d);
  }

  lemma MatchTreeFits(env: Env)
    requires EnvOk(env)
    ensures Fits(MatchTree(env), 20, 26)
  {
    forall len | LenOk(len)
      ensures Fits(SlotTrees()(len), 10, 26)
    {
      SlotTreeFits(len);
    }
    LenTreeFits(MATCH_LEN, env.posState, SlotTrees(), 10, 26);
  }

  lemma RepTreeFits(env: Env)
    requires EnvOk(env)
    ensures Fits(RepTree(env), 13, 0)
  {
    forall which | 0 <= which < 4
      ensures Fits(RepLenTree(env, which), 10, 0)
    {
      LenTreeFits(REP_LEN, env.posState, RepLeaf(which), 0, 0);
    }
    FitsMore(RepLenTree(env, 0), 10, 0, 11, 0);
    FitsMore(RepLenTree(env, 1), 10, 0, 11, 0);
  }

  /** The worst case named at LZMA_IN_REQUIRED: 22 adaptive and 26 direct decisions a symbol. Every
      decision stays inside the probability tables; lengths are in [2,273] and distances below 2^32. */
  lemma SymbolTreeFits(env: Env)
    requires EnvOk(env)
    ensures Fits(SymbolTree(env), 22, 26)
  {
    LiteralTreeFits(env);
    MatchTreeFits(env);
    RepTreeFits(env);
    FitsMore(LiteralTree(env), 8, 0, 21, 26);
    FitsMore(RepTree(env), 13, 0, 20, 26);
  }
}
