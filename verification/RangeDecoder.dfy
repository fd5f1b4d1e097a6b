/**
 struct rc_dec of compat/xz_dec_lzma2.c, updated in place. Each method follows a piece of a decision
 tree: what decoding the tree from the old state yields is what decoding the rest of it from the new
 state yields.
 */
module RangeDecoder {
  import opened Arithmetic
  import opened Common
  import opened RangeBounds
  import opened RangeCoder
  import opened Words
  import opened LzmaLayout
  import opened LzmaSymbols
  import opened LzmaRun

  /** Following `t` from `d` never reads at or beyond the end of `inp`. */
  ghost predicate Safe(t: Tree, d: Dec, inp: seq<byte>)
    requires InTable(t) && |d.probs| == PROBS_TOTAL
  {
    match t
    case Leaf(_) => true
    case Node(q, _, _) =>
      && (d.range < TOP ==> d.pos < |inp|)
      && var (bit, d') := Decide(q, d, inp); Safe(Child(t, bit), d', inp)
  }

  /** Room up to the end of the input makes a tree safe to follow. */
  lemma {:induction false} RoomIsSafe(t: Tree, d: Dec, inp: seq<byte>, a: nat, b: nat)
    requires InTable(t) && Fits(t, a, b) && DecOk(d) && Room(d.range, a, b, |inp| - d.pos)
    ensures Safe(t, d, inp)
    decreases t
  {
    match t
    case Leaf(_) =>
    case Node(q, _, _) =>
      var (bit, d') := Decide(q, d, inp);
      DecideOk(q, d, inp);
      ChargeDecision(q, d, inp, |inp|, a, b);
      if d.range < TOP {
        RoomNormalize(d.range, a, b, |inp| - d.pos);
      }
      var c := Child(t, bit);
      if q.Even? {
        RoomIsSafe(c, d', inp, a, b - 1);
      } else if Fits(c, a - 1, b) {
        RoomIsSafe(c, d', inp, a - 1, b);
      } else {
        RoomIsSafe(c, d', inp, a, 0);
      }
  }

  /** Decoding `t` from `d` yields `goal` without running off the input. The recursion on `seal` only keeps
      the definition out of proofs that pass it along; Unsealed is what it says. */
  ghost predicate Yields(t: Tree, d: Dec, inp: seq<byte>, goal: (Outcome, Dec), seal: nat)
    decreases seal, t
  {
    if seal == 0 then
      InTable(t) && |d.probs| == PROBS_TOTAL && Safe(t, d, inp) && Run(t, d, inp) == goal
    else Yields(t, d, inp, goal, seal - 1)
  }

  lemma Unsealed(t: Tree, d: Dec, inp: seq<byte>, goal: (Outcome, Dec))
    ensures Yields(t, d, inp, goal, SEAL) <==>
      InTable(t) && |d.probs| == PROBS_TOTAL && Safe(t, d, inp) && Run(t, d, inp) == goal
  {
    assert Yields(t, d, inp, goal, 1) <==> Yields(t, d, inp, goal, 0);
    assert Yields(t, d, inp, goal, 2) <==> Yields(t, d, inp, goal, 1);
    assert Yields(t, d, inp, goal, 3) <==> Yields(t, d, inp, goal, 2);
  }

  /** A leaf yields itself. */
  lemma AtLeaf(o: Outcome, d: Dec, inp: seq<byte>, goal: (Outcome, Dec))
    requires Yields(Leaf(o), d, inp, goal, SEAL)
    ensures goal == (o, d)
  {
    Unsealed(Leaf(o), d, inp, goal);
  }

  /** At a node there is a byte to read if one is needed, and the decision leads on to the same goal. */
  lemma AtNode(t: Tree, d: Dec, inp: seq<byte>, goal: (Outcome, Dec))
    requires t.Node? && Yields(t, d, inp, goal, SEAL)
    ensures |d.probs| == PROBS_TOTAL && (t.query.Adaptive? ==> t.query.index < PROBS_TOTAL)
    ensures d.range < TOP ==> d.pos < |inp|
    ensures var (bit, d') := Decide(t.query, d, inp); Yields(Child(t, bit), d', inp, goal, SEAL)
  {
    Unsealed(t, d, inp, goal);
    var (bit, d') := Decide(t.query, d, inp);
    Unsealed(Child(t, bit), d', inp, goal);
  }

  // the symbol of a bit tree after `depth` decisions
  ghost predicate AtDepth(symbol: nat, depth: nat) {
    Pow2(depth) <= symbol < 2 * Pow2(depth)
  }

  lemma NextDepth(symbol: nat, depth: nat)
    requires AtDepth(symbol, depth)
    ensures AtDepth(2 * symbol, depth + 1) && AtDepth(2 * symbol + 1, depth + 1)
  {
  }

  lemma DepthBelow(symbol: nat, depth: nat, bits: nat)
    requires depth <= bits && AtDepth(symbol, depth)
    ensures symbol < Pow2(bits) <==> depth < bits
    ensures depth == bits ==> Pow2(bits) <= symbol < 2 * Pow2(bits)
  {
    if depth < bits {
      Pow2Mono(depth + 1, bits);
    }
  }

  class RangeDec {
    var range: Word
    var code: Word
    var initBytesLeft: nat
    var input: array<byte>      // either the decoder's temporary buffer or the caller's input
    var inPos: nat
    var inLimit: nat

    constructor (input: array<byte>)
      ensures this.input == input
    {
      this.input := input;
      range, code, initBytesLeft, inPos, inLimit := 0, 0, 0, 0, 0;
    }

    ghost function State(probs: array<Prob>): (d: Dec)
      reads `range, `code, `inPos, probs
    {
      Dec(range, code, probs[..], inPos)
    }

    /** rc_reset */
    method Reset()
      modifies `range, `code, `initBytesLeft
      ensures range == TWO32 - 1 && code == 0 && initBytesLeft == 5
    {
      range := TWO32 - 1;
      code := 0;
      initBytesLeft := 5;
    }

    /** rc_normalize */
    method Normalize(ghost probs: array<Prob>)
      requires range < TOP ==> inPos < input.Length
      modifies `range, `code, `inPos
      ensures State(probs) == RangeCoder.Normalize(old(State(probs)), input[..])
    {
      if range < TOP {
        range := range * 256;
        code := (code * 256 + input[inPos]) % TWO32;
        inPos := inPos + 1;
      }
    }

    // Decoding `t` from here yields `goal`.
    ghost predicate On(t: Tree, probs: array<Prob>, goal: (Outcome, Dec))
      reads this, probs, input
    {
      Yields(t, State(probs), input[..], goal, SEAL)
    }

    /** rc_bit: one adaptive decision, the first of the tree `t`. */
    method Bit(probs: array<Prob>, i: nat, ghost t: Tree, ghost goal: (Outcome, Dec)) returns (bit: bool)
      requires t.Node? && t.query == Adaptive(i) && On(t, probs, goal)
      modifies `range, `code, `inPos, probs
      ensures input[..] == old(input[..]) && On(Child(t, bit), probs, goal)
    {
      AtNode(t, State(probs), input[..], goal);
      ghost var d := State(probs);
      Normalize(probs);
      var p: int := probs[i];
      var bound := Bound(range, p);
      if code < bound {
        range := bound;
        p := p + (2048 - p) / 32;
        bit := false;
      } else {
        range := range - bound;
        code := code - bound;
        p := p - p / 32;
        bit := true;
      }
      probs[i] := p;
      assert (bit, State(probs)) == DecodeBit(d, i, input[..]);
    }

    /** rc_bittree: the `bits` bits of a tree, most significant first, after a leading 1. */
    method BitTree(probs: array<Prob>, base: nat, limit: nat, ghost bits: nat, ghost k: nat -> Tree, ghost goal: (Outcome, Dec))
        returns (symbol: nat)
      requires bits >= 1 && limit == Pow2(bits)
      requires On(LzmaSymbols.BitTree(base, 1, bits, k), probs, goal)
      modifies `range, `code, `inPos, probs
      ensures input[..] == old(input[..])
      ensures limit <= symbol < 2 * limit && On(k(symbol), probs, goal)
    {
      ghost var depth: nat := 0;
      symbol := 1;
      while symbol < limit
        invariant depth <= bits && AtDepth(symbol, depth)
        invariant input[..] == old(input[..])
        invariant On(LzmaSymbols.BitTree(base, symbol, bits - depth, k), probs, goal)
        decreases bits - depth
      {
        DepthBelow(symbol, depth, bits);
        NextDepth(symbol, depth);
        var bit := Bit(probs, base + symbol, LzmaSymbols.BitTree(base, symbol, bits - depth, k), goal);
        symbol := if bit then symbol * 2 + 1 else symbol * 2;
        depth := depth + 1;
      }
      DepthBelow(symbol, depth, bits);
    }

    /** rc_bittree_reverse: bits 0..limit-1 are added to `dest`, least significant first. */
    method BitTreeReverse(probs: array<Prob>, base: int, dest: nat, limit: nat, ghost k: nat -> Tree, ghost goal: (Outcome, Dec))
        returns (r: nat)
      requires limit >= 1 && base >= -1
      requires On(ReverseTree(base, 1, 0, limit, dest, k), probs, goal)
      modifies `range, `code, `inPos, probs
      ensures input[..] == old(input[..]) && On(k(r), probs, goal)
    {
      var symbol := 1;
      var i := 0;
      r := dest;
      while i < limit
        invariant i <= limit && symbol >= 1
        invariant input[..] == old(input[..])
        invariant On(ReverseTree(base, symbol, i, limit, r, k), probs, goal)
      {
        var bit := Bit(probs, base + symbol, ReverseTree(base, symbol, i, limit, r, k), goal);
        if bit {
          symbol := symbol * 2 + 1;
          r := r + Pow2(i);
        } else {
          symbol := symbol * 2;
        }
        i := i + 1;
      }
    }

    /** rc_direct: `limit` bits with even odds are appended to `dest`. */
    method Direct(ghost probs: array<Prob>, dest: nat, limit: nat, ghost k: nat -> Tree, ghost goal: (Outcome, Dec))
        returns (r: nat)
      requires limit >= 1
      requires On(EvenTree(dest, limit, k), probs, goal)
      modifies `range, `code, `inPos
      ensures On(k(r), probs, goal)
    {
      var left := limit;
      r := dest;
      while left > 0
        invariant left <= limit
        invariant On(EvenTree(r, left, k), probs, goal)
      {
        AtNode(EvenTree(r, left, k), State(probs), input[..], goal);
        ghost var d := State(probs);
        Normalize(probs);
        range := range / 2;
        var wrapped := (code - range) % TWO32;
        var mask := wrapped >= 0x8000_0000;
        code := if mask then (wrapped + range) % TWO32 else wrapped;
        assert (!mask, State(probs)) == DecodeDirect(d, input[..]);
        r := 2 * r + (if mask then 0 else 1);
        left := left - 1;
      }
    }
  }
}
