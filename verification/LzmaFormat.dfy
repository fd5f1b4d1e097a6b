/**
 The LZMA symbol code as the format has it: for every symbol the binary decisions that stand for it, each with the
 adaptive variable it uses, written down from the symbols before it and the bytes they stand for. Nothing here is
 built from the decision trees of LzmaSymbols; that they say the same is what is proved.
 */
module LzmaFormat {
  import opened Arithmetic
  import opened Common
  import opened RangeCoder
  import opened Words
  import opened LzmaLayout
  import opened LzmaSymbols
  import opened LzmaRun
  import opened LzmaModel
  import opened LzmaRoundTrip
  import opened LzmaLeaves
  import opened LzmaEncoding

  // ---- the adaptive variables

  /** `node` is a place in a binary tree: 1 at the root, 2 n and 2 n + 1 below n. */
  datatype Var =
    | IsMatch(state: nat, posState: nat)
    | IsRep(state: nat)
    | IsRep0(state: nat)
    | IsRep0Long(state: nat, posState: nat)
    | IsRep1(state: nat)
    | IsRep2(state: nat)
    | Literal(coder: nat, node: nat)
    | LenChoice(rep: bool)
    | LenChoice2(rep: bool)
    | LenLow(rep: bool, posState: nat, node: nat)
    | LenMid(rep: bool, posState: nat, node: nat)
    | LenHigh(rep: bool, node: nat)
    | DistSlot(lenState: nat, node: nat)
    | DistSpecial(slot: nat, node: nat)
    | DistAlign(node: nat)

  ghost predicate VarOk(v: Var) {
    match v
    case IsMatch(s, p) => s < 12 && p < 16
    case IsRep(s) => s < 12
    case IsRep0(s) => s < 12
    case IsRep0Long(s, p) => s < 12 && p < 16
    case IsRep1(s) => s < 12
    case IsRep2(s) => s < 12
    case Literal(c, n) => c < 16 && 1 <= n < 0x300
    case LenChoice(_) => true
    case LenChoice2(_) => true
    case LenLow(_, p, n) => p < 16 && 1 <= n < 8
    case LenMid(_, p, n) => p < 16 && 1 <= n < 8
    case LenHigh(_, n) => 1 <= n < 256
    case DistSlot(l, n) => l < 4 && 1 <= n < 64
    case DistSpecial(s, n) => 4 <= s < 14 && 1 <= n < Pow2(s / 2 - 1)
    case DistAlign(n) => 1 <= n < 16
  }

  function LenBase(rep: bool): nat { if rep then REP_LEN else MATCH_LEN }

  /** Where struct lzma_dec keeps a variable: Place under a name that proofs do not unfold. */
  function CellOf(v: Var): int { SealedCell(v, SEAL) }

  function SealedCell(v: Var, seal: nat): int
    decreases seal, v
  {
    if seal == 0 then Place(v) else SealedCell(v, seal - 1)
  }

  lemma CellIs(v: Var)
    ensures CellOf(v) == Place(v)
  {
    assert SealedCell(v, 1) == SealedCell(v, 0);
    assert SealedCell(v, 2) == SealedCell(v, 1);
    assert SealedCell(v, 3) == SealedCell(v, 2);
  }

  function Place(v: Var): int {
    match v
    case IsMatch(s, p) => IS_MATCH + s * POS_STATES_MAX + p
    case IsRep(s) => IS_REP + s
    case IsRep0(s) => IS_REP0 + s
    case IsRep0Long(s, p) => IS_REP0_LONG + s * POS_STATES_MAX + p
    case IsRep1(s) => IS_REP1 + s
    case IsRep2(s) => IS_REP2 + s
    case Literal(c, n) => LITERAL + LITERAL_CODER_SIZE * c + n
    case LenChoice(rep) => LenBase(rep)
    case LenChoice2(rep) => LenBase(rep) + LEN_CHOICE2
    case LenLow(rep, p, n) => LenBase(rep) + LEN_LOW + p * 8 + n
    case LenMid(rep, p, n) => LenBase(rep) + LEN_MID + p * 8 + n
    case LenHigh(rep, n) => LenBase(rep) + LEN_HIGH + n
    case DistSlot(l, n) => DIST_SLOT + l * 64 + n
    case DistSpecial(s, n) => SpecialBase(s) + n
    case DistAlign(n) => DIST_ALIGN + n
  }

  // which of the arrays a cell is in, and where the array begins and ends
  function Kind(v: Var): nat {
    match v
    case IsMatch(_, _) => 0
    case IsRep(_) => 1
    case IsRep0(_) => 2
    case IsRep1(_) => 3
    case IsRep2(_) => 4
    case IsRep0Long(_, _) => 5
    case DistSlot(_, _) => 6
    case DistSpecial(_, _) => 7
    case DistAlign(_) => 8
    case LenChoice(rep) => if rep then 14 else 9
    case LenChoice2(rep) => if rep then 15 else 10
    case LenLow(rep, _, _) => if rep then 16 else 11
    case LenMid(rep, _, _) => if rep then 17 else 12
    case LenHigh(rep, _) => if rep then 18 else 13
    case Literal(_, _) => 19
  }

  // ends of the arrays, in order
  function End(kind: nat): nat {
    if kind == 0 then 192 else if kind == 1 then 204 else if kind == 2 then 216 else if kind == 3 then 228
    else if kind == 4 then 240 else if kind == 5 then 432 else if kind == 6 then 688 else if kind == 7 then 802
    else if kind == 8 then 818 else if kind == 9 then 819 else if kind == 10 then 820 else if kind == 11 then 948
    else if kind == 12 then 1076 else if kind == 13 then 1332 else if kind == 14 then 1333 else if kind == 15 then 1334
    else if kind == 16 then 1462 else if kind == 17 then 1590 else if kind == 18 then 1846 else 14134
  }

  lemma CellInArray(v: Var)
    requires VarOk(v)
    ensures (if Kind(v) == 0 then 0 else End(Kind(v) - 1)) <= CellOf(v) < End(Kind(v))
  {
    CellIs(v);
    if v.DistSpecial? {
      SpecialCells(v.slot);
    }
  }

  /** Every variable has a cell of its own. */
  lemma CellsDistinct(v: Var, w: Var)
    requires VarOk(v) && VarOk(w) && v != w
    ensures CellOf(v) != CellOf(w) && 0 <= CellOf(v) < PROBS_TOTAL
  {
    CellInArray(v);
    CellInArray(w);
    if Kind(v) < Kind(w) {
      EndsRise(Kind(v), Kind(w) - 1);
    } else if Kind(w) < Kind(v) {
      EndsRise(Kind(w), Kind(v) - 1);
    } else if v.DistSpecial? {
      SameSpecial(v, w);
    } else {
      SameArray(v, w);
    }
  }

  lemma EndsRise(j: nat, k: nat)
    requires j <= k
    ensures End(j) <= End(k)
  {
  }

  lemma SameSpecial(v: Var, w: Var)
    requires VarOk(v) && VarOk(w) && v != w && v.DistSpecial? && w.DistSpecial?
    ensures CellOf(v) != CellOf(w)
  {
    CellIs(v);
    CellIs(w);
    SpecialDistinct(v.slot, v.node, w.slot, w.node);
  }

  lemma SameArray(v: Var, w: Var)
    requires VarOk(v) && VarOk(w) && v != w && Kind(v) == Kind(w) && !v.DistSpecial?
    ensures CellOf(v) != CellOf(w)
  {
    CellIs(v);
    CellIs(w);
  }

  lemma SpecialDistinct(s: nat, n: nat, s': nat, n': nat)
    requires 4 <= s < 14 && 1 <= n < Pow2(s / 2 - 1) && 4 <= s' < 14 && 1 <= n' < Pow2(s' / 2 - 1) && (s != s' || n != n')
    ensures SpecialBase(s) + n != SpecialBase(s') + n'
  {
    if s < s' {
      SpecialRises(s, s');
    } else if s' < s {
      SpecialRises(s', s);
    }
  }

  lemma {:induction false} SpecialRises(s: nat, s': nat)
    requires 4 <= s < s' < 14
    ensures SpecialBase(s) + Pow2(SlotExtra(s)) <= SpecialBase(s') + 1
  {
    SpecialCells(s' - 1);
    if s < s' - 1 {
      SpecialRises(s, s' - 1);
    }
  }

  // ---- decisions

  /** A decision with an adaptive variable, or with even odds. */
  datatype Decision = Choice(v: Var, bit: bool) | Fifty(bit: bool)

  ghost predicate Asks(q: Query, d: Decision) {
    match d
    case Choice(v, _) => q.Adaptive? && q.index == CellOf(v)
    case Fifty(_) => q.Even?
  }

  /** Where the decisions lead from the root of `t`; None if the tree asks for others. */
  ghost function Follow(t: Tree, ds: seq<Decision>): Option<Tree>
    decreases |ds|
  {
    if ds == [] then Some(t)
    else if t.Node? && Asks(t.query, ds[0]) then Follow(Child(t, ds[0].bit), ds[1..])
    else None
  }

  lemma {:induction false} FollowOn(t: Tree, a: seq<Decision>, b: seq<Decision>)
    requires Follow(t, a).Some?
    ensures Follow(t, a + b) == Follow(Follow(t, a).value, b)
    decreases |a|
  {
    if a == [] {
      assert a + b == b;
    } else {
      assert (a + b)[0] == a[0] && (a + b)[1..] == a[1..] + b;
      FollowOn(Child(t, a[0].bit), a[1..], b);
    }
  }

  // the bits of `s` from number d on, of n, most significant first
  function TopBit(s: nat, n: nat, d: nat): bool
    requires d < n
  {
    s / Pow2(n - d - 1) % 2 == 1
  }

  // 1, and then the first d bits of s
  function TopNode(s: nat, n: nat, d: nat): nat
    requires d <= n
  {
    Pow2(d) + s / Pow2(n - d)
  }

  /** A number of n bits, most significant first, in a binary tree of variables. */
  function TopDown(f: nat -> Var, s: nat, n: nat, d: nat): seq<Decision>
    decreases n - d
  {
    if d >= n then [] else [Choice(f(TopNode(s, n, d)), TopBit(s, n, d))] + TopDown(f, s, n, d + 1)
  }

  lemma NodeOn(s: nat, n: nat, d: nat)
    requires d < n
    ensures TopNode(s, n, d + 1) == 2 * TopNode(s, n, d) + if TopBit(s, n, d) then 1 else 0
  {
    HalfDiv(s, Pow2(n - d - 1));
  }

  lemma NodeEnds(s: nat, n: nat)
    requires s < Pow2(n)
    ensures TopNode(s, n, 0) == 1 && TopNode(s, n, n) == Pow2(n) + s
  {
    DivModIs(s, Pow2(n), 0, s);
    assert Pow2(0) == 1;
  }

  lemma {:induction false} BitsFollow(base: nat, f: nat -> Var, k: nat -> Tree, s: nat, n: nat, d: nat)
    requires d <= n && forall m: nat :: CellOf(f(m)) == base + m
    ensures Follow(BitTree(base, TopNode(s, n, d), n - d, k), TopDown(f, s, n, d)) == Some(k(TopNode(s, n, n)))
    decreases n - d
  {
    if d < n {
      NodeOn(s, n, d);
      BitsFollow(base, f, k, s, n, d + 1);
      assert TopDown(f, s, n, d)[1..] == TopDown(f, s, n, d + 1);
    }
  }

  /** The same with even odds. */
  function Fifties(s: nat, n: nat, d: nat): seq<Decision>
    decreases n - d
  {
    if d >= n then [] else [Fifty(TopBit(s, n, d))] + Fifties(s, n, d + 1)
  }

  lemma {:induction false} FiftiesFollow(top: nat, k: nat -> Tree, s: nat, n: nat, d: nat)
    requires d <= n
    ensures Follow(EvenTree(top * Pow2(d) + s / Pow2(n - d), n - d, k), Fifties(s, n, d)) == Some(k(top * Pow2(n) + s / Pow2(0)))
    decreases n - d
  {
    if d < n {
      HalfDiv(s, Pow2(n - d - 1));
      Doubling(top, Pow2(d));
      assert top * Pow2(d + 1) == 2 * (top * Pow2(d));
      FiftiesFollow(top, k, s, n, d + 1);
      assert Fifties(s, n, d)[1..] == Fifties(s, n, d + 1);
    }
  }

  // 1, and then the i lowest bits of s, lowest first
  function LowNode(s: nat, i: nat): nat {
    if i == 0 then 1 else 2 * LowNode(s, i - 1) + s / Pow2(i - 1) % 2
  }

  /** A number of n bits, least significant first, in a binary tree of variables. */
  function BottomUp(f: nat -> Var, s: nat, n: nat, i: nat): seq<Decision>
    decreases n - i
  {
    if i >= n then [] else [Choice(f(LowNode(s, i)), s / Pow2(i) % 2 == 1)] + BottomUp(f, s, n, i + 1)
  }

  lemma {:induction false} ReverseFollow(base: int, f: nat -> Var, k: nat -> Tree, s: nat, n: nat, start: nat, i: nat,
                                         node: nat, dest: nat)
    requires i <= n && base >= -1 && forall m: nat :: CellOf(f(m)) == base + m
    requires node == LowNode(s, i) >= 1 && dest == start + s % Pow2(i)
    ensures Follow(ReverseTree(base, node, i, n, dest, k), BottomUp(f, s, n, i)) == Some(k(start + s % Pow2(n)))
    decreases n - i
  {
    if i < n {
      var p, bit := Pow2(i), s / Pow2(i) % 2;
      ModTop(s, p);
      var node', dest' := 2 * node + bit, if bit == 1 then dest + p else dest;
      ReverseFollow(base, f, k, s, n, start, i + 1, node', dest');
      var t := ReverseTree(base, node, i, n, dest, k);
      assert Child(t, bit == 1) == ReverseTree(base, node', i + 1, n, dest', k);
      FollowOne(t, Choice(f(node), bit == 1), BottomUp(f, s, n, i + 1));
    }
  }

  lemma FollowOne(t: Tree, d: Decision, ds: seq<Decision>)
    requires t.Node? && Asks(t.query, d)
    ensures Follow(t, [d] + ds) == Follow(Child(t, d.bit), ds)
  {
    assert ([d] + ds)[1..] == ds;
  }

  lemma ModTop(s: nat, p: nat)
    requires p > 0
    ensures s % (2 * p) == s % p + s / p % 2 * p
  {
    var q, r := s / p, s % p;
    assert s == q * p + r;
    var h, b := q / 2, q % 2;
    assert q * p == (2 * h + b) * p == h * (2 * p) + b * p;
    DivModIs(s, 2 * p, h, b * p + r);
  }

  // ---- literals

  /** Which symbols have come before: numbers of states, positions and coders, and the byte that a literal right
      after a match or repeat is compared with. */
  datatype Context = Context(state: nat, posState: nat, coder: nat, other: Option<byte>)

  // the first d of n bits are the same
  predicate SameTop(c: nat, m: nat, n: nat, d: nat)
    requires d <= n
  {
    c / Pow2(n - d) == m / Pow2(n - d)
  }

  // as long as a literal agrees with that byte, its bits have variables of their own, by the next bit of it
  function MatchedNode(c: nat, m: nat, n: nat, d: nat): nat
    requires d < n
  {
    TopNode(c, n, d) + if !SameTop(c, m, n, d) then 0 else if TopBit(m, n, d) then 0x200 else 0x100
  }

  function MatchedDecisions(coder: nat, m: nat, c: nat, n: nat, d: nat): seq<Decision>
    decreases n - d
  {
    if d >= n then []
    else [Choice(Literal(coder, MatchedNode(c, m, n, d)), TopBit(c, n, d))] + MatchedDecisions(coder, m, c, n, d + 1)
  }

  function LiteralVars(coder: nat): nat -> Var { (node: nat) => Literal(coder, node) }

  function LiteralDecisions(coder: nat, other: Option<byte>, c: byte): seq<Decision> {
    if other.Some? then MatchedDecisions(coder, other.value, c, 8, 0)
    else TopDown(LiteralVars(coder), c, 8, 0)
  }

  // bits of the match byte as the C code gets at them
  ghost predicate BitsReached(m: nat, n: nat) {
    forall d: nat :: d < n ==> MatchBit(Shl(m, d + 1), 0x100) == if TopBit(m, n, d) then 0x100 else 0
  }

  lemma MatchBits(m: nat)
    ensures BitsReached(m, 8)
  {
    EightBits();
    forall d: nat | d < 8
      ensures MatchBit(Shl(m, d + 1), 0x100) == if TopBit(m, 8, d) then 0x100 else 0
    {
      ShlDiv(m, d + 1, 8);
    }
  }

  lemma {:induction false} ShlDiv(x: nat, k: nat, n: nat)
    requires k <= n
    ensures Shl(x, k) / Pow2(n) == x / Pow2(n - k)
    decreases k
  {
    if k > 0 {
      ShlDiv(x, k - 1, n - 1);
      DoubleDiv(Shl(x, k - 1), Pow2(n - 1));
    }
  }

  lemma DoubleDiv(x: nat, p: nat)
    requires p > 0
    ensures 2 * x / (2 * p) == x / p
  {
    var q, r := x / p, x % p;
    assert x == q * p + r;
    assert 2 * x == q * (2 * p) + 2 * r;
    DivModIs(2 * x, 2 * p, q, 2 * r);
  }

  lemma {:induction false} MatchedFollow(base: nat, coder: nat, c: nat, m: nat, n: nat, d: nat)
    requires d <= n && base == LITERAL + LITERAL_CODER_SIZE * coder && BitsReached(m, n)
    ensures
      var offset := if SameTop(c, m, n, d) then 0x100 else 0;
      Follow(MatchedTree(base, TopNode(c, n, d), n - d, Shl(m, d + 1), offset), MatchedDecisions(coder, m, c, n, d))
        == Some(LitLeaf(TopNode(c, n, n)))
    decreases n - d
  {
    if d < n {
      SameOn(c, m, n, d);
      NodeOn(c, n, d);
      MatchedFollow(base, coder, c, m, n, d + 1);
      MatchedOnce(base, coder, TopNode(c, n, d), TopBit(c, n, d), Shl(m, d + 1), if SameTop(c, m, n, d) then 0x100 else 0,
                  TopBit(m, n, d), n - d, MatchedDecisions(coder, m, c, n, d + 1));
    }
  }

  lemma SameOn(c: nat, m: nat, n: nat, d: nat)
    requires d < n
    ensures SameTop(c, m, n, d + 1) <==> SameTop(c, m, n, d) && TopBit(c, n, d) == TopBit(m, n, d)
  {
    HalfDiv(c, Pow2(n - d - 1));
    HalfDiv(m, Pow2(n - d - 1));
  }

  // one bit of a literal that is compared with a byte
  lemma {:induction false} MatchedOnce(base: nat, coder: nat, node: nat, bit: bool, shifted: nat, offset: nat,
                                       mbit: bool, bits: nat, rest: seq<Decision>)
    requires bits > 0 && base == LITERAL + LITERAL_CODER_SIZE * coder && (offset == 0 || offset == 0x100)
    requires MatchBit(shifted, 0x100) == if mbit then 0x100 else 0
    ensures var v := Literal(coder, node + if offset == 0 then 0 else if mbit then 0x200 else 0x100);
      Follow(MatchedTree(base, node, bits, shifted, offset), [Choice(v, bit)] + rest)
        == Follow(MatchedTree(base, 2 * node + if bit then 1 else 0, bits - 1, 2 * shifted, if bit == mbit then offset else 0), rest)
  {
    var v := Literal(coder, node + if offset == 0 then 0 else if mbit then 0x200 else 0x100);
    CellIs(v);
    FollowOne(MatchedTree(base, node, bits, shifted, offset), Choice(v, bit), rest);
  }

  lemma LiteralFollows(env: Env, x: Context, c: byte)
    requires env.literal == LITERAL + LITERAL_CODER_SIZE * x.coder
    requires StateIsLiteral(env.state) <==> x.other.None?
    requires x.other.Some? ==> env.matchByte == x.other.value
    ensures Follow(LiteralTree(env), LiteralDecisions(x.coder, x.other, c)) == Some(Leaf(Lit(c)))
  {
    var n, d: nat := 8, 0;
    LiteralEnds(c, n, d);
    if x.other.None? {
      VarsInPlace(env.literal, x.coder);
      BitsFollow(env.literal, LiteralVars(x.coder), LitLeaves(), c, n, d);
    } else {
      var m := env.matchByte;
      MatchBits(m);
      SameAtAll(c, m, n, d);
      MatchedFollow(env.literal, x.coder, c, m, n, d);
    }
  }

  lemma VarsInPlace(base: nat, coder: nat)
    requires base == LITERAL + LITERAL_CODER_SIZE * coder
    ensures forall m: nat :: CellOf(LiteralVars(coder)(m)) == base + m
  {
    forall m: nat
      ensures CellOf(LiteralVars(coder)(m)) == base + m
    {
      CellIs(Literal(coder, m));
    }
  }

  lemma LiteralEnds(c: byte, n: nat, d: nat)
    requires n == 8 && d == 0
    ensures TopNode(c, n, d) == 1 && n - d == n && LitLeaf(TopNode(c, n, n)) == Leaf(Lit(c))
  {
    EightBits();
    NodeEnds(c, n);
  }

  lemma SameAtAll(c: byte, m: byte, n: nat, d: nat)
    requires n == 8 && d == 0
    ensures SameTop(c, m, n, d) && Shl(m, d + 1) == m * 2
  {
    EightBits();
    DivModIs(c, Pow2(n), 0, c);
    DivModIs(m, Pow2(n), 0, m);
    assert Shl(m, d + 1) == 2 * Shl(m, d);
  }

  // ---- lengths

  function LowVars(rep: bool, posState: nat): nat -> Var { (node: nat) => LenLow(rep, posState, node) }
  function MidVars(rep: bool, posState: nat): nat -> Var { (node: nat) => LenMid(rep, posState, node) }
  function HighVars(rep: bool): nat -> Var { (node: nat) => LenHigh(rep, node) }

  /** Lengths 2 to 9, 10 to 17 and 18 to 273. */
  function LenDecisions(rep: bool, posState: nat, len: nat): seq<Decision> {
    if len < 2 then []
    else if len < 10 then [Choice(LenChoice(rep), false)] + TopDown(LowVars(rep, posState), len - 2, 3, 0)
    else [Choice(LenChoice(rep), true)] + LongDecisions(rep, posState, len)
  }

  function LongDecisions(rep: bool, posState: nat, len: nat): seq<Decision>
    requires len >= 10
  {
    if len < 18 then [Choice(LenChoice2(rep), false)] + TopDown(MidVars(rep, posState), len - 10, 3, 0)
    else [Choice(LenChoice2(rep), true)] + TopDown(HighVars(rep), len - 18, 8, 0)
  }

  // the variables of a section, and the bits below its choice
  function SectionVars(rep: bool, posState: nat, section: nat): nat -> Var {
    if section == 0 then LowVars(rep, posState) else if section == 1 then MidVars(rep, posState) else HighVars(rep)
  }

  lemma SectionInPlace(rep: bool, posState: nat, section: nat)
    requires section < 3
    ensures forall m: nat :: CellOf(SectionVars(rep, posState, section)(m)) == LenBase(rep) + SectionBase(section, posState) + m
  {
    forall m: nat
      ensures CellOf(SectionVars(rep, posState, section)(m)) == LenBase(rep) + SectionBase(section, posState) + m
    {
      CellIs(LenLow(rep, posState, m));
      CellIs(LenMid(rep, posState, m));
      CellIs(LenHigh(rep, m));
    }
  }

  lemma {:induction false} SectionFollows(rep: bool, posState: nat, section: nat, x: nat, n: nat, d: nat, k: nat -> Tree)
    requires section < 3 && n == SectionBits(section) && d == 0 && x < Pow2(n)
    ensures Follow(SectionTree(LenBase(rep), posState, section, k), TopDown(SectionVars(rep, posState, section), x, n, d))
         == Some(k(SectionMin(section) + x))
  {
    SectionInPlace(rep, posState, section);
    SectionEnds(section, x, n, d, k);
    var b, f, g := LenBase(rep) + SectionBase(section, posState), SectionVars(rep, posState, section), LenOf(section, k);
    assert SectionTree(LenBase(rep), posState, section, k) == BitTree(b, TopNode(x, n, d), n - d, g);
    BitsFollow(b, f, g, x, n, d);
  }

  lemma SectionEnds(section: nat, x: nat, n: nat, d: nat, k: nat -> Tree)
    requires n == SectionBits(section) && d == 0 && x < Pow2(n)
    ensures TopNode(x, n, d) == 1 && n - d == n && LenOf(section, k)(TopNode(x, n, n)) == k(SectionMin(section) + x)
  {
    NodeEnds(x, n);
    var s := TopNode(x, n, n);
    assert LenFrom(section, s) == SectionMin(section) + x;
    assert LenOf(section, k)(s) == k(LenFrom(section, s));
  }

  lemma {:induction false} LenFollows(rep: bool, posState: nat, len: nat, k: nat -> Tree)
    requires LenOk(len)
    ensures Follow(LenTree(LenBase(rep), posState, 0, k), LenDecisions(rep, posState, len)) == Some(k(len))
  {
    SectionSizes();
    var t := LenTree(LenBase(rep), posState, 0, k);
    CellIs(LenChoice(rep));
    if len < 10 {
      SectionFollows(rep, posState, 0, len - 2, 3, 0, k);
      FollowOne(t, Choice(LenChoice(rep), false), TopDown(LowVars(rep, posState), len - 2, 3, 0));
    } else {
      LongFollows(rep, posState, len, k);
      FollowOne(t, Choice(LenChoice(rep), true), LongDecisions(rep, posState, len));
    }
  }

  lemma SectionSizes()
    ensures Pow2(SectionBits(0)) == 8 && Pow2(SectionBits(1)) == 8 && Pow2(SectionBits(2)) == 256
  {
    assert Pow2(3) == 8 && Pow2(8) == 256;
  }

  lemma {:induction false} LongFollows(rep: bool, posState: nat, len: nat, k: nat -> Tree)
    requires 10 <= len <= 273
    ensures Follow(LenTree(LenBase(rep), posState, 1, k), LongDecisions(rep, posState, len)) == Some(k(len))
  {
    SectionSizes();
    CellIs(LenChoice2(rep));
    var b := LenBase(rep);
    var t1, t2 := SectionTree(b, posState, 1, k), SectionTree(b, posState, 2, k);
    assert LenTree(b, posState, 2, k) == t2;
    assert LenTree(b, posState, 1, k) == Node(Adaptive(b + 1), t1, t2);
    var high := len >= 18;
    var rest := if high then TopDown(HighVars(rep), len - 18, 8, 0) else TopDown(MidVars(rep, posState), len - 10, 3, 0);
    FollowOne(Node(Adaptive(b + 1), t1, t2), Choice(LenChoice2(rep), high), rest);
    if high {
      SectionFollows(rep, posState, 2, len - 18, 8, 0, k);
    } else {
      SectionFollows(rep, posState, 1, len - 10, 3, 0, k);
    }
  }

  // ---- distances

  // the place of the highest bit
  function Log2(x: nat): (e: nat)
    requires x > 0
    ensures Pow2(e) <= x < 2 * Pow2(e)
  {
    if x == 1 then 0 else 1 + Log2(x / 2)
  }

  /** A slot tells the two highest bits of a distance and their place; small distances are their own slots. */
  function SlotOf(dist: nat): nat {
    if dist < 4 then dist else 2 * Log2(dist) + dist / Pow2(Log2(dist) - 1) % 2
  }

  // lengths 2, 3 and 4, and all longer ones together, have slots of their own
  function SlotVars(len: nat): nat -> Var {
    (node: nat) => DistSlot(if len < 2 then 0 else if len < 6 then len - 2 else 3, node)
  }

  function SpecialVars(slot: nat): nat -> Var { (node: nat) => DistSpecial(slot, node) }
  function AlignVars(): nat -> Var { (node: nat) => DistAlign(node) }

  /** The slot; then what is below its two bits: lowest bit first for distances below 128, and for longer ones the
      four lowest bits last, the others with even odds. */
  function DistDecisions(len: nat, dist: nat): seq<Decision> {
    TopDown(SlotVars(len), SlotOf(dist), 6, 0) + LowDecisions(SlotOf(dist), dist)
  }

  function LowDecisions(slot: nat, dist: nat): seq<Decision> {
    if slot < 4 then []
    else
      var n := slot / 2 - 1;
      var low := dist % Pow2(n);
      if slot < 14 then BottomUp(SpecialVars(slot), low, n, 0)
      else Fifties(low / 16, n - 4, 0) + BottomUp(AlignVars(), low % 16, 4, 0)
  }

  lemma SlotOfIs(dist: nat)
    requires dist < TWO32
    ensures var slot := SlotOf(dist);
      slot < 64 && InSlot(slot, dist) && (slot >= 4 ==> dist % Pow2(slot / 2 - 1) == dist - SlotStart(slot))
  {
    if dist < 4 {
      assert Pow2(0) == 1;
    } else {
      var e := Log2(dist);
      LogWithin(dist);
      var p := Pow2(e - 1);
      TwoOrThree(dist, p);
      HighSlot(2 * e + dist / p % 2, e, dist, dist / p, dist % p);
    }
  }

  lemma HighSlot(slot: nat, e: nat, dist: nat, q: nat, r: nat)
    requires 2 <= e < 32 && (q == 2 || q == 3) && slot == 2 * e + q % 2 && r < Pow2(e - 1) && dist == q * Pow2(e - 1) + r
    ensures 4 <= slot < 64 && InSlot(slot, dist) && slot / 2 - 1 == e - 1 && SlotStart(slot) == q * Pow2(e - 1) == dist - r
  {
  }

  lemma TwoOrThree(x: nat, p: nat)
    requires p > 0 && 2 * p <= x < 4 * p
    ensures (x / p == 2 || x / p == 3) && x == x / p * p + x % p
  {
    var q := x / p;
    assert x == q * p + x % p;
    assert q <= 1 ==> q * p <= p;
    assert q >= 4 ==> q * p >= 4 * p;
  }

  lemma LogWithin(x: nat)
    requires 4 <= x < TWO32
    ensures 2 <= Log2(x) < 32 && 2 * Pow2(Log2(x) - 1) <= x < 4 * Pow2(Log2(x) - 1)
  {
    BigPow2();
    assert Pow2(32) == 2 * Pow2(31) && Pow2(1) == 2;
    if Log2(x) >= 32 {
      Pow2Mono(32, Log2(x));
    }
  }

  lemma {:induction false} DistFollows(len: nat, dist: nat)
    requires LenOk(len) && dist < TWO32
    ensures Follow(SlotTree(len), DistDecisions(len, dist)) == Some(Leaf(Match(len, dist)))
  {
    var slot := SlotOf(dist);
    SlotOfIs(dist);
    SlotFollows(len, slot, 6, 0);
    LowFollows(len, slot, dist);
    FarJoined(SlotTree(len), DistTree(len, slot), TopDown(SlotVars(len), slot, 6, 0), LowDecisions(slot, dist), Leaf(Match(len, dist)));
  }

  lemma {:induction false} SlotFollows(len: nat, slot: nat, n: nat, d: nat)
    requires n == 6 && d == 0 && slot < 64
    ensures Follow(SlotTree(len), TopDown(SlotVars(len), slot, n, d)) == Some(DistTree(len, slot))
  {
    SlotEnds(len, slot, n, d);
    SlotInPlace(len);
    var b, k := DIST_SLOT + DistState(len) * 64, AfterSlot(len);
    assert SlotTree(len) == BitTree(b, TopNode(slot, n, d), n - d, k);
    BitsFollow(b, SlotVars(len), k, slot, n, d);
  }

  lemma SlotInPlace(len: nat)
    ensures forall m: nat :: CellOf(SlotVars(len)(m)) == DIST_SLOT + DistState(len) * 64 + m
  {
    forall m: nat
      ensures CellOf(SlotVars(len)(m)) == DIST_SLOT + DistState(len) * 64 + m
    {
      CellIs(SlotVars(len)(m));
    }
  }

  lemma SlotEnds(len: nat, slot: nat, n: nat, d: nat)
    requires n == 6 && d == 0 && slot < 64
    ensures TopNode(slot, n, d) == 1 && n - d == n && AfterSlot(len)(TopNode(slot, n, n)) == DistTree(len, slot)
  {
    SixBits();
    NodeEnds(slot, n);
    assert TopNode(slot, n, n) - 64 == slot;
  }

  lemma {:induction false} LowFollows(len: nat, slot: nat, dist: nat)
    requires slot < 64 && InSlot(slot, dist) && (slot >= 4 ==> dist % Pow2(slot / 2 - 1) == dist - SlotStart(slot))
    ensures Follow(DistTree(len, slot), LowDecisions(slot, dist)) == Some(Leaf(Match(len, dist)))
  {
    if slot < 4 {
      assert Pow2(0) == 1;
    } else if slot < 14 {
      NearFollows(len, slot, dist, 0);
    } else {
      FarFollows(len, slot, dist);
    }
  }

  lemma {:induction false} NearFollows(len: nat, slot: nat, dist: nat, i: nat)
    requires 4 <= slot < 14 && i == 0 && InSlot(slot, dist) && dist % Pow2(slot / 2 - 1) == dist - SlotStart(slot)
    ensures var n := slot / 2 - 1;
      Follow(DistTree(len, slot), BottomUp(SpecialVars(slot), dist % Pow2(n), n, i)) == Some(Leaf(Match(len, dist)))
  {
    var n, low, node := slot / 2 - 1, dist - SlotStart(slot), 1;
    LowEnds(low, n, i);
    NearVars(slot);
    NearShape(len, slot, node, i);
    ReverseFollow(SpecialBase(slot), SpecialVars(slot), MatchLeaf(len), low, n, SlotStart(slot), i, node, SlotStart(slot));
  }

  lemma NearVars(slot: nat)
    requires 4 <= slot < 14
    ensures SpecialBase(slot) >= -1 && forall m: nat :: CellOf(SpecialVars(slot)(m)) == SpecialBase(slot) + m
  {
    SpecialCells(slot);
    forall m: nat
      ensures CellOf(SpecialVars(slot)(m)) == SpecialBase(slot) + m
    {
      CellIs(DistSpecial(slot, m));
    }
  }

  lemma {:induction false} NearShape(len: nat, slot: nat, node: nat, i: nat)
    requires 4 <= slot < 14 && node == 1 && i == 0
    ensures DistTree(len, slot) == ReverseTree(SpecialBase(slot), node, i, slot / 2 - 1, SlotStart(slot), MatchLeaf(len))
  {
  }

  lemma LowEnds(low: nat, n: nat, i: nat)
    requires i == 0 && low < Pow2(n)
    ensures LowNode(low, i) == 1 && low % Pow2(i) == 0 && low % Pow2(n) == low
  {
    assert Pow2(i) == 1;
    DivModIs(low, 1, low, 0);
    DivModIs(low, Pow2(n), 0, low);
  }

  lemma {:induction false} FarFollows(len: nat, slot: nat, dist: nat)
    requires 14 <= slot < 64 && InSlot(slot, dist) && dist % Pow2(slot / 2 - 1) == dist - SlotStart(slot)
    ensures Follow(DistTree(len, slot), LowDecisions(slot, dist)) == Some(Leaf(Match(len, dist)))
  {
    var low, left, top, k := dist - SlotStart(slot), slot / 2 - 5, SlotTop(slot), AlignTree(len);
    var four, zero := 4, 0;
    FarShape(len, slot, dist, low, left, four, zero);
    EvenFollows(top, k, low / 16, left, zero);
    AlignFollows(len, top * Pow2(left) + low / 16, low % 16, four, zero);
    FarJoined(EvenTree(top, left, k), k(top * Pow2(left) + low / 16), Fifties(low / 16, left, zero),
              BottomUp(AlignVars(), low % 16, four, zero), Leaf(Match(len, dist)));
  }

  lemma {:induction false} FarShape(len: nat, slot: nat, dist: nat, low: nat, left: nat, n: nat, i: nat)
    requires 14 <= slot < 64 && InSlot(slot, dist) && dist % Pow2(slot / 2 - 1) == low == dist - SlotStart(slot)
    requires left == slot / 2 - 5 && n == 4 && i == 0
    ensures DistTree(len, slot) == EvenTree(SlotTop(slot), left, AlignTree(len))
    ensures LowDecisions(slot, dist) == Fifties(low / 16, left, i) + BottomUp(AlignVars(), low % 16, n, i)
    ensures low / 16 < Pow2(left) && (SlotTop(slot) * Pow2(left) + low / 16) * 16 + low % 16 == dist
  {
    FarParts(SlotTop(slot), slot / 2 - 1, low);
  }

  lemma {:induction false} EvenFollows(top: nat, k: nat -> Tree, s: nat, n: nat, d: nat)
    requires d == 0 && s < Pow2(n)
    ensures Follow(EvenTree(top, n, k), Fifties(s, n, d)) == Some(k(top * Pow2(n) + s))
  {
    EvenEnds(top, s, n, d);
    FiftiesFollow(top, k, s, n, d);
  }

  lemma EvenEnds(top: nat, s: nat, n: nat, d: nat)
    requires d == 0 && s < Pow2(n)
    ensures top * Pow2(d) + s / Pow2(n - d) == top && n - d == n && s / Pow2(0) == s
  {
    assert Pow2(d) == 1;
    DivModIs(s, Pow2(n), 0, s);
  }

  lemma FarParts(top: nat, n: nat, low: nat)
    requires n >= 6 && low < Pow2(n)
    ensures low / 16 < Pow2(n - 4) && 16 * (top * Pow2(n - 4) + low / 16) + low % 16 == top * Pow2(n) + low
  {
    Pow2Add(4, n - 4);
    assert Pow2(4) == 16;
    assert 16 * (top * Pow2(n - 4)) == top * (16 * Pow2(n - 4));
  }

  lemma FarJoined(t: Tree, u: Tree, a: seq<Decision>, b: seq<Decision>, leaf: Tree)
    requires Follow(t, a) == Some(u) && Follow(u, b) == Some(leaf)
    ensures Follow(t, a + b) == Some(leaf)
  {
    FollowOn(t, a, b);
  }

  lemma {:induction false} AlignFollows(len: nat, high: nat, low: nat, n: nat, i: nat)
    requires n == 4 && i == 0 && low < 16
    ensures Follow(AlignTree(len)(high), BottomUp(AlignVars(), low, n, i)) == Some(Leaf(Match(len, high * 16 + low)))
  {
    assert Pow2(4) == 16;
    LowEnds(low, n, i);
    forall m: nat
      ensures CellOf(AlignVars()(m)) == DIST_ALIGN + m
    {
      CellIs(DistAlign(m));
    }
    ReverseFollow(DIST_ALIGN, AlignVars(), MatchLeaf(len), low, n, high * 16, i, 1, high * 16);
  }

  // ---- symbols

  /** The decisions of a symbol. */
  function Decisions(x: Context, o: Outcome): seq<Decision> {
    var s, p := x.state, x.posState;
    match o
    case Lit(c) => [Choice(IsMatch(s, p), false)] + LiteralDecisions(x.coder, x.other, c)
    case Match(len, dist) =>
      [Choice(IsMatch(s, p), true), Choice(IsRep(s), false)] + (LenDecisions(false, p, len) + DistDecisions(len, dist))
    case ShortRep =>
      [Choice(IsMatch(s, p), true), Choice(IsRep(s), true)] + [Choice(IsRep0(s), false), Choice(IsRep0Long(s, p), false)]
    case LongRep(which, len) =>
      [Choice(IsMatch(s, p), true), Choice(IsRep(s), true)] + (RepDecisions(s, p, which) + LenDecisions(true, p, len))
  }

  // which of the four latest distances
  function RepDecisions(s: nat, p: nat, which: nat): seq<Decision> {
    if which == 0 then [Choice(IsRep0(s), false), Choice(IsRep0Long(s, p), true)]
    else if which == 1 then [Choice(IsRep0(s), true), Choice(IsRep1(s), false)]
    else [Choice(IsRep0(s), true), Choice(IsRep1(s), true), Choice(IsRep2(s), which == 3)]
  }

  /** What the decoder looks up before a symbol is what the format says about the symbols before it. */
  ghost predicate Fitting(env: Env, x: Context) {
    && env.state == x.state && env.posState == x.posState && env.literal == LITERAL + LITERAL_CODER_SIZE * x.coder
    && (StateIsLiteral(env.state) <==> x.other.None?) && (x.other.Some? ==> env.matchByte == x.other.value)
  }

  lemma {:induction false} SymbolFollows(env: Env, x: Context, o: Outcome)
    requires Fitting(env, x) && OutcomeOk(o)
    ensures Follow(SymbolTree(env), Decisions(x, o)) == Some(Leaf(o))
  {
    var s, p := x.state, x.posState;
    CellIs(IsMatch(s, p));
    CellIs(IsRep(s));
    var t := SymbolTree(env);
    match o
    case Lit(c) =>
      LiteralFollows(env, x, c);
      FollowOne(t, Choice(IsMatch(s, p), false), LiteralDecisions(x.coder, x.other, c));
    case Match(len, dist) =>
      MatchFollows(p, len, dist);
      FollowTwo(t, Choice(IsMatch(s, p), true), Choice(IsRep(s), false), LenDecisions(false, p, len) + DistDecisions(len, dist));
    case ShortRep =>
      ShortFollows(env, x);
      FollowTwo(t, Choice(IsMatch(s, p), true), Choice(IsRep(s), true), [Choice(IsRep0(s), false), Choice(IsRep0Long(s, p), false)]);
    case LongRep(which, len) =>
      RepFollows(env, x, which, len);
      FollowTwo(t, Choice(IsMatch(s, p), true), Choice(IsRep(s), true), RepDecisions(s, p, which) + LenDecisions(true, p, len));
  }

  lemma FollowTwo(t: Tree, d: Decision, e: Decision, ds: seq<Decision>)
    requires t.Node? && Asks(t.query, d) && Child(t, d.bit).Node? && Asks(Child(t, d.bit).query, e)
    ensures Follow(t, [d, e] + ds) == Follow(Child(Child(t, d.bit), e.bit), ds)
  {
    assert [d, e] + ds == [d] + ([e] + ds);
    FollowOne(t, d, [e] + ds);
    FollowOne(Child(t, d.bit), e, ds);
  }

  lemma {:induction false} MatchFollows(p: nat, len: nat, dist: nat)
    requires LenOk(len) && dist < TWO32
    ensures Follow(LenTree(MATCH_LEN, p, 0, SlotTrees()), LenDecisions(false, p, len) + DistDecisions(len, dist)) == Some(Leaf(Match(len, dist)))
  {
    LenFollows(false, p, len, SlotTrees());
    DistFollows(len, dist);
    FarJoined(LenTree(MATCH_LEN, p, 0, SlotTrees()), SlotTree(len), LenDecisions(false, p, len), DistDecisions(len, dist),
              Leaf(Match(len, dist)));
  }

  lemma {:induction false} ShortFollows(env: Env, x: Context)
    requires Fitting(env, x)
    ensures Follow(RepTree(env), [Choice(IsRep0(x.state), false), Choice(IsRep0Long(x.state, x.posState), false)]) == Some(Leaf(ShortRep))
  {
    CellIs(IsRep0(x.state));
    CellIs(IsRep0Long(x.state, x.posState));
    var a, b := Choice(IsRep0(x.state), false), Choice(IsRep0Long(x.state, x.posState), false);
    FollowTwo(RepTree(env), a, b, []);
    assert [a, b] + [] == [a, b];
  }

  lemma {:induction false} RepFollows(env: Env, x: Context, which: nat, len: nat)
    requires Fitting(env, x) && which < 4 && LenOk(len)
    ensures Follow(RepTree(env), RepDecisions(x.state, x.posState, which) + LenDecisions(true, x.posState, len))
         == Some(Leaf(LongRep(which, len)))
  {
    LenFollows(true, x.posState, len, RepLeaf(which));
    WhichFollows(env, x, which);
    FarJoined(RepTree(env), RepLenTree(env, which), RepDecisions(x.state, x.posState, which), LenDecisions(true, x.posState, len),
              Leaf(LongRep(which, len)));
  }

  lemma {:induction false} WhichFollows(env: Env, x: Context, which: nat)
    requires Fitting(env, x) && which < 4
    ensures Follow(RepTree(env), RepDecisions(x.state, x.posState, which)) == Some(RepLenTree(env, which))
  {
    var s, p, t := x.state, x.posState, RepTree(env);
    CellIs(IsRep0(s));
    CellIs(IsRep0Long(s, p));
    CellIs(IsRep1(s));
    CellIs(IsRep2(s));
    if which == 0 {
      FollowTwo(t, Choice(IsRep0(s), false), Choice(IsRep0Long(s, p), true), []);
      assert RepDecisions(s, p, which) == [Choice(IsRep0(s), false), Choice(IsRep0Long(s, p), true)] + [];
    } else if which == 1 {
      FollowTwo(t, Choice(IsRep0(s), true), Choice(IsRep1(s), false), []);
      assert RepDecisions(s, p, which) == [Choice(IsRep0(s), true), Choice(IsRep1(s), false)] + [];
    } else {
      var last := Choice(IsRep2(s), which == 3);
      FollowTwo(t, Choice(IsRep0(s), true), Choice(IsRep1(s), true), [last]);
      assert RepDecisions(s, p, which) == [Choice(IsRep0(s), true), Choice(IsRep1(s), true)] + [last];
      FollowOne(t.one.one, last, []);
      assert [last] + [] == [last];
    }
  }

  // ---- what came before

  function KindOf(o: Outcome): LzmaLayout.Kind {
    match o
    case Lit(_) => KLit
    case Match(_, _) => KMatch
    case ShortRep => KShortRep
    case LongRep(_, _) => KLongRep
  }

  function Kinds(os: seq<Outcome>): (ks: seq<LzmaLayout.Kind>)
    ensures |ks| == |os|
  {
    if os == [] then [] else Kinds(os[..|os| - 1]) + [KindOf(os[|os| - 1])]
  }

  /** The distances of the latest four repeats, the latest first: one that is used again moves to the front. */
  function Distances(os: seq<Outcome>): (r: seq<nat>)
    ensures |r| == 4
  {
    if os == [] then [0, 0, 0, 0] else InFront(Distances(os[..|os| - 1]), os[|os| - 1])
  }

  function InFront(r: seq<nat>, o: Outcome): (r': seq<nat>)
    requires |r| == 4
    ensures |r'| == 4
  {
    match o
    case Match(_, dist) => [dist] + r[..3]
    case LongRep(which, _) => if which < 4 then [r[which]] + r[..which] + r[which + 1..] else r
    case _ => r
  }

  ghost predicate AllSymbols(os: seq<Outcome>) { forall i :: 0 <= i < |os| ==> OutcomeOk(os[i]) }

  /** The decoder's own account of them. */
  function LzAfter(os: seq<Outcome>): Lz
    requires AllSymbols(os)
  {
    if os == [] then LzReset() else Update(LzAfter(os[..|os| - 1]), os[|os| - 1])
  }

  lemma {:induction false} LzIs(os: seq<Outcome>)
    requires AllSymbols(os)
    ensures Distances(os) == Reps(LzAfter(os)) && LzAfter(os).state == StateAfter(Kinds(os))
    decreases |os|
  {
    if os != [] {
      var n := |os| - 1;
      LzIs(os[..n]);
      UpdateIs(LzAfter(os[..n]), os[n]);
      KindsOn(os);
    }
  }

  lemma KindsOn(os: seq<Outcome>)
    requires os != []
    ensures var n := |os| - 1; StateAfter(Kinds(os)) == NextState(StateAfter(Kinds(os[..n])), KindOf(os[n]))
  {
    var n := |os| - 1;
    assert Kinds(os)[..n] == Kinds(os[..n]);
  }

  function Reps(lz: Lz): seq<nat> { [lz.rep0, lz.rep1, lz.rep2, lz.rep3] }

  lemma UpdateIs(lz: Lz, o: Outcome)
    requires OutcomeOk(o)
    ensures Reps(Update(lz, o)) == InFront(Reps(lz), o) && Update(lz, o).state == NextState(lz.state, KindOf(o))
  {
  }

  /** The context of the next symbol, when `os` have been decoded since the last reset and `hist` is what there is. */
  function ContextOf(p: Props, os: seq<Outcome>, hist: seq<byte>): Context
    requires p.lc <= 8
  {
    var prev: nat := if hist == [] then 0 else hist[|hist| - 1];
    var dist := Distances(os)[0];
    Context(NamedState(Kinds(os)), |hist| % Pow2(p.pb), prev / Pow2(8 - p.lc) + |hist| % Pow2(p.lp) * Pow2(p.lc),
            if os == [] || os[|os| - 1].Lit? then None else Some(if dist < |hist| then hist[|hist| - 1 - dist] else 0))
  }

  lemma ContextFits(p: Props, os: seq<Outcome>, hist: seq<byte>)
    requires PropsOk(p) && AllSymbols(os)
    ensures Fitting(EnvOf(p, LzAfter(os), hist), ContextOf(p, os, hist))
  {
    LzIs(os);
    StateNamesHistory(Kinds(os));
    LiteralStates(Kinds(os));
    LowIsMod(|hist|, p.pb);
    LowIsMod(|hist|, p.lp);
    ShrIsDiv(ByteBack(hist, 0), 8 - p.lc);
    ShlIsMul(Low(|hist|, p.lp), p.lc);
  }

  lemma {:induction false} ShrIsDiv(x: nat, n: nat)
    ensures Shr(x, n) == x / Pow2(n)
    decreases n
  {
    if n > 0 {
      ShrIsDiv(x / 2, n - 1);
      DivDouble(x, Pow2(n - 1));
    }
  }

  lemma DivDouble(x: nat, p: nat)
    requires p > 0
    ensures x / (2 * p) == x / 2 / p
  {
    var h, b := x / 2, x % 2;
    var q, r := h / p, h % p;
    assert h == q * p + r;
    assert x == 2 * h + b == q * (2 * p) + (2 * r + b);
    DivModIs(x, 2 * p, q, 2 * r + b);
  }

  /** Whatever has been decoded before: the decisions that the decision tree asks for a symbol are those of the
      format. */
  lemma TreeIsFormat(p: Props, os: seq<Outcome>, hist: seq<byte>, o: Outcome)
    requires PropsOk(p) && AllSymbols(os) && OutcomeOk(o)
    ensures Follow(SymbolTree(EnvOf(p, LzAfter(os), hist)), Decisions(ContextOf(p, os, hist), o)) == Some(Leaf(o))
  {
    ContextFits(p, os, hist);
    SymbolFollows(EnvOf(p, LzAfter(os), hist), ContextOf(p, os, hist), o);
  }

  // ---- decoding

  /** The decoder takes the decisions `ds`, one after the other, and then has a symbol. */
  ghost predicate Takes(t: Tree, d: Dec, inp: seq<byte>, ds: seq<Decision>)
    requires InTable(t) && |d.probs| == PROBS_TOTAL
    decreases t
  {
    match t
    case Leaf(_) => ds == []
    case Node(q, _, _) =>
      var (bit, d') := Decide(q, d, inp);
      ds != [] && Asks(q, ds[0]) && ds[0].bit == bit && Takes(Child(t, bit), d', inp, ds[1..])
  }

  lemma {:induction false} TakesExactly(t: Tree, d: Dec, inp: seq<byte>, ds: seq<Decision>, o: Outcome)
    requires InTable(t) && |d.probs| == PROBS_TOTAL && Unambiguous(t) && Follow(t, ds) == Some(Leaf(o))
    ensures Run(t, d, inp).0 == o <==> Takes(t, d, inp, ds)
    decreases t
  {
    if t.Node? {
      var (bit, d') := Decide(t.query, d, inp);
      var c := Child(t, ds[0].bit);
      if ds[0].bit == bit {
        TakesExactly(c, d', inp, ds[1..], o);
      } else {
        FollowLeaf(c, ds[1..], o);
        RunLeaf(Child(t, bit), d', inp);
      }
    }
  }

  lemma {:induction false} FollowLeaf(t: Tree, ds: seq<Decision>, o: Outcome)
    requires Follow(t, ds) == Some(Leaf(o))
    ensures HasLeaf(t, o)
    decreases |ds|
  {
    if ds != [] {
      FollowLeaf(Child(t, ds[0].bit), ds[1..], o);
    }
  }

  lemma {:induction false} RunLeaf(t: Tree, d: Dec, inp: seq<byte>)
    requires InTable(t) && |d.probs| == PROBS_TOTAL
    ensures HasLeaf(t, Run(t, d, inp).0)
    decreases t
  {
    if t.Node? {
      var (bit, d') := Decide(t.query, d, inp);
      RunLeaf(Child(t, bit), d', inp);
    }
  }

  /** The symbol that the decoder finds next. */
  function OutcomeAt(c: Config, m: Machine, inp: seq<byte>): Outcome
    requires MachineOk(c, m)
  {
    SymbolIs(c, m, inp);
    Run(SymbolTree(EnvOf(c.props, m.lz, m.hist)), m.d, inp).0
  }

  /** The symbols that it finds from `m` on. */
  function Trace(c: Config, m: Machine, inp: seq<byte>, n: nat): (os: seq<Outcome>)
    requires MachineOk(c, m) && Symbols(c, m, inp, n).Some?
    decreases n
  {
    if n == 0 then [] else [OutcomeAt(c, m, inp)] + Trace(c, Symbol(c, m, inp).value, inp, n - 1)
  }

  lemma {:induction false} TraceGoesOn(c: Config, m: Machine, inp: seq<byte>, n: nat, os: seq<Outcome>)
    requires MachineOk(c, m) && Symbols(c, m, inp, n).Some? && AllSymbols(os) && m.lz == LzAfter(os)
    ensures var all := os + Trace(c, m, inp, n);
      MachineOk(c, Symbols(c, m, inp, n).value) && AllSymbols(all) && Symbols(c, m, inp, n).value.lz == LzAfter(all)
    decreases n
  {
    if n == 0 {
      assert os + Trace(c, m, inp, n) == os;
    } else {
      var o, m' := OutcomeAt(c, m, inp), Symbol(c, m, inp).value;
      OutcomeMakes(c, m, inp);
      OneMoreSymbol(os, o, Trace(c, m', inp, n - 1));
      TraceGoesOn(c, m', inp, n - 1, os + [o]);
    }
  }

  lemma OutcomeMakes(c: Config, m: Machine, inp: seq<byte>)
    requires MachineOk(c, m)
    ensures OutcomeOk(OutcomeAt(c, m, inp))
    ensures Symbol(c, m, inp).Some? ==> Symbol(c, m, inp).value.lz == Update(m.lz, OutcomeAt(c, m, inp))
  {
    SymbolIs(c, m, inp);
  }

  lemma OneMoreSymbol(os: seq<Outcome>, o: Outcome, rest: seq<Outcome>)
    requires AllSymbols(os) && OutcomeOk(o)
    ensures AllSymbols(os + [o]) && LzAfter(os + [o]) == Update(LzAfter(os), o) && os + ([o] + rest) == os + [o] + rest
  {
    assert (os + [o])[..|os|] == os;
  }

  /** Over whole runs from a reset: the next symbol is `o` exactly if the decisions that the decoder takes are those
      that the format has for `o` after the symbols before. In particular a literal is compared with the byte of the
      latest distance exactly if it comes right after a match or repeat. */
  lemma DecodesTheFormat(c: Config, m: Machine, inp: seq<byte>, n: nat, o: Outcome)
    requires MachineOk(c, m) && m.lz == LzReset() && Symbols(c, m, inp, n).Some? && OutcomeOk(o)
    ensures var os, r := Trace(c, m, inp, n), Symbols(c, m, inp, n).value;
      && MachineOk(c, r)
      && var t := SymbolTree(EnvOf(c.props, r.lz, r.hist));
         && EnvOk(EnvOf(c.props, r.lz, r.hist)) && InTable(t)
         && (OutcomeAt(c, r, inp) == o <==> Takes(t, r.d, inp, Decisions(ContextOf(c.props, os, r.hist), o)))
  {
    TraceGoesOn(c, m, inp, n, []);
    var os, r := Trace(c, m, inp, n), Symbols(c, m, inp, n).value;
    assert [] + os == os;
    SymbolIs(c, r, inp);
    var env := EnvOf(c.props, r.lz, r.hist);
    TreeIsFormat(c.props, os, r.hist, o);
    SymbolTreeExact(env, o);
    TakesExactly(SymbolTree(env), r.d, inp, Decisions(ContextOf(c.props, os, r.hist), o), o);
  }

  // ---- what a symbol stands for

  /** A literal is itself; the others repeat what is the latest distance then, plus one, before. */
  lemma SymbolMeaning(c: Config, os: seq<Outcome>, hist: seq<byte>, o: Outcome, i: nat)
    requires AllSymbols(os) && OutcomeOk(o)
    ensures AllSymbols(os + [o]) && LzAfter(os + [o]) == Update(LzAfter(os), o)
    ensures var r, dist := Extend(o, LzAfter(os + [o]).rep0, hist, c.size), Distances(os + [o])[0];
      && (r.Some? <==> o.Lit? || (dist < |hist| && dist < c.size))
      && (r.Some? ==>
           var h := r.value;
           && hist <= h && |h| == |hist| + (match o
                                         case Lit(_) => 1
                                         case ShortRep => 1
                                         case Match(len, _) => len
                                         case LongRep(_, len) => len)
           && (|hist| <= i < |h| ==> h[i] == match o case Lit(v) => v case _ => h[i - dist - 1]))
  {
    assert (os + [o])[..|os|] == os;
    LzIs(os + [o]);
    var r, dist := Extend(o, LzAfter(os + [o]).rep0, hist, c.size), Distances(os + [o])[0];
    if r.Some? && !o.Lit? && |hist| <= i < |r.value| {
      CopyMatchPeriodic(hist, dist, RepeatLen(o), i);
    }
  }
}
