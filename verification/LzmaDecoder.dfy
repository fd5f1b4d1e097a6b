/**
 struct lzma_dec and the functions of compat/xz_dec_lzma2.c that decode LZMA symbols, in place: each is
 tied to the branch of the decision tree that it follows, and lzma_main to rounds of the machine of
 LzmaModel.
 */
module LzmaDecoder {
  import opened Common
  import opened Arithmetic
  import opened RangeBounds
  import opened RangeCoder
  import opened Words
  import opened LzmaLayout
  import opened LzmaSymbols
  import opened LzmaRun
  import opened LzmaModel
  import opened RangeDecoder
  import opened Dictionary

  class LzmaDec {
    const rc: RangeDec
    const dict: Dict
    const probs: array<Prob>
    var rep0: Word
    var rep1: Word
    var rep2: Word
    var rep3: Word
    var state: State
    var len: nat
    var lc: nat
    var literalPosMask: nat
    var posMask: nat
    ghost var lp: nat
    ghost var pb: nat

    constructor (rc: RangeDec, dict: Dict, probs: array<Prob>)
      ensures this.rc == rc && this.dict == dict && this.probs == probs && len == 0
      ensures PropsOk(Properties()) && literalPosMask + 1 == Pow2(lp) && posMask + 1 == Pow2(pb)
    {
      this.rc, this.dict, this.probs := rc, dict, probs;
      rep0, rep1, rep2, rep3, state, len := 0, 0, 0, 0, 0, 0;
      lc, literalPosMask, posMask, lp, pb := 0, 0, 0, 0, 0;
    }

    ghost function Properties(): Props
      reads this
    {
      Props(lc, lp, pb)
    }

    ghost function Config(): Config
      reads this, dict`size
    {
      LzmaModel.Config(Properties(), dict.size)
    }

    ghost function Lz(): Lz
      reads this
    {
      LzmaModel.Lz(rep0, rep1, rep2, rep3, state)
    }

    ghost function D(): Dec
      reads rc`range, rc`code, rc`inPos, probs
    {
      rc.State(probs)
    }

    // the property byte has been taken apart correctly
    ghost predicate Shape()
      reads this
    {
      && probs.Length == PROBS_TOTAL && PropsOk(Properties())
      && literalPosMask + 1 == Pow2(lp) && posMask + 1 == Pow2(pb)
    }

    ghost function Env(): Env
      requires Shape()
      reads this, dict
    {
      EnvOf(Properties(), Lz(), dict.hist)
    }

    ghost function Input(): seq<byte>
      reads rc, rc.input
    {
      rc.input[..]
    }

    ghost function Now(): Machine
      reads this, rc`range, rc`code, rc`inPos, probs, dict`hist
    {
      Machine(D(), Lz(), dict.hist)
    }

    // the machine with the pending part of a match already copied
    ghost function Ahead(): Machine
      reads this, rc`range, rc`code, rc`inPos, probs, dict`hist
    {
      Machine(D(), Lz(), Completed(dict.hist, rep0, len))
    }

    ghost predicate Valid()
      reads this, rc`range, rc`code, probs, dict.buf
      reads dict`start, dict`pos, dict`full, dict`end, dict`size, dict`hist, dict`laps, dict`units
    {
      && Shape() && RingOk(dict, SEAL)
      && MachineOk(Config(), Machine(Dec(rc.range, rc.code, probs[..], 0), Lz(), dict.hist))
      && (len > 0 ==> DistOk(dict.hist, rep0, dict.size))
    }

    // Decoding `t` from here yields `goal`.
    ghost predicate On(t: Tree, goal: (Outcome, Dec))
      reads this, rc, rc.input, probs
    {
      rc.On(t, probs, goal)
    }

    /** lzma_literal_probs: the literal coder for this position and previous byte. */
    method LiteralProbs() returns (base: nat)
      requires Shape() && RingOk(dict, SEAL)
      ensures base == LiteralCoder(Properties(), dict.hist)
    {
      RingOkIs(dict);
      var prevByte := dict.Get(0);
      var low := Shr(prevByte, 8 - lc);
      LowIsMod(dict.pos, lp);
      LowOfSum(dict.pos, dict.laps, lp);
      var high := Shl(dict.pos % (literalPosMask + 1), lc);
      base := LITERAL + LITERAL_CODER_SIZE * (low + high);
    }

    // dict.pos & pos_mask
    method PosState() returns (r: nat)
      requires Shape() && RingOk(dict, SEAL)
      ensures r == Env().posState < POS_STATES_MAX
    {
      RingOkIs(dict);
      LowIsMod(dict.pos, pb);
      LowOfSum(dict.pos, dict.laps, pb);
      EnvOfOk(Properties(), Lz(), dict.hist);
      r := dict.pos % (posMask + 1);
    }

    /** lzma_literal */
    method Literal(ghost goal: (Outcome, Dec))
      requires Shape() && RingOk(dict, SEAL) && dict.pos < dict.end
      requires !StateIsLiteral(state) ==> DistOk(dict.hist, rep0, dict.size)
      requires On(LiteralTree(Env()), goal)
      modifies rc`range, rc`code, rc`inPos, probs, `state, dict`pos, dict`full, dict`hist, dict.buf
      ensures RingOk(dict, SEAL) && goal.1 == D()
      ensures goal.0.Lit? && dict.hist == old(dict.hist) + [goal.0.value]
      ensures dict.pos == old(dict.pos) + 1 && state == StateLiteral(old(state))
    {
      RingOkIs(dict);
      var base := LiteralProbs();
      var symbol;
      EightOrThree();
      if StateIsLiteral(state) {
        symbol := rc.BitTree(probs, base, 0x100, 8, LitLeaves(), goal);
      } else {
        var matchByte: int := dict.Get(rep0);
        symbol := MatchedLiteral(base, matchByte * 2, goal);
      }
      AtLeaf(Lit(symbol % 256), D(), Input(), goal);
      dict.Put(symbol % 256);
      RingOkIs(dict);
      state := StateLiteral(state);
    }

    /** The loop of lzma_literal that compares with the match byte. */
    method MatchedLiteral(base: nat, matchByte0: nat, ghost goal: (Outcome, Dec)) returns (symbol: nat)
      requires On(MatchedTree(base, 1, 8, matchByte0, 0x100), goal)
      modifies rc`range, rc`code, rc`inPos, probs
      ensures Input() == old(Input()) && On(LitLeaf(symbol), goal)
    {
      ghost var depth: nat := 0;
      var matchByte, offset := matchByte0, 0x100;
      symbol := 1;
      while symbol < 0x100
        invariant depth <= 8 && AtDepth(symbol, depth) && (offset == 0 || offset == 0x100)
        invariant Input() == old(Input())
        invariant On(MatchedTree(base, symbol, 8 - depth, matchByte, offset), goal)
        decreases 8 - depth
      {
        EightOrThree();
        DepthBelow(symbol, depth, 8);
        NextDepth(symbol, depth);
        var matchBit := MatchBit(matchByte, offset);
        ghost var t := MatchedTree(base, symbol, 8 - depth, matchByte, offset);
        matchByte := matchByte * 2;
        var bit := rc.Bit(probs, base + offset + matchBit + symbol, t, goal);
        if bit {
          symbol := symbol * 2 + 1;
          offset := matchBit;
        } else {
          symbol := symbol * 2;
          offset := if matchBit == 0 then offset else 0;
        }
        depth := depth + 1;
      }
      EightOrThree();
      DepthBelow(symbol, depth, 8);
    }

    /** lzma_len */
    method Len(base: nat, posState: nat, ghost k: nat -> Tree, ghost goal: (Outcome, Dec)) returns (r: nat)
      requires On(LenTree(base, posState, 0, k), goal) && posState < POS_STATES_MAX
      modifies rc`range, rc`code, rc`inPos, probs
      ensures Input() == old(Input()) && LenOk(r) && On(k(r), goal)
    {
      ghost var t := LenTree(base, posState, 0, k);
      assert t.one == LenTree(base, posState, 1, k);
      assert t.one.one == LenTree(base, posState, 2, k);
      var section;
      var bit := rc.Bit(probs, base, t, goal);
      if !bit {
        section := 0;
      } else {
        bit := rc.Bit(probs, base + LEN_CHOICE2, t.one, goal);
        section := if bit then 2 else 1;
      }
      var limit := if section == 2 then 256 else 8;
      EightOrThree();
      var symbol := rc.BitTree(probs, base + SectionBase(section, posState), limit, SectionBits(section), LenOf(section, k), goal);
      r := SectionMin(section) + symbol - limit;
      assert r == LenFrom(section, symbol);
    }

    /** lzma_match: a match at a new distance, which becomes rep0. */
    method Match(posState: nat, ghost goal: (Outcome, Dec))
      requires Shape() && posState == Env().posState
      requires On(MatchTree(Env()), goal) && OutcomeOk(goal.0)
      modifies rc`range, rc`code, rc`inPos, probs, `state, `rep0, `rep1, `rep2, `rep3, `len
      ensures goal == (LzmaSymbols.Match(len, rep0), D()) && LenOk(len)
      ensures Lz() == Update(old(Lz()), goal.0)
    {
      EnvOfOk(Properties(), Lz(), dict.hist);
      state := StateMatch(state);
      rep3 := rep2;
      rep2 := rep1;
      rep1 := rep0;
      len := Len(MATCH_LEN, posState, SlotTrees(), goal);
      SixtyFour();
      var symbol := rc.BitTree(probs, DIST_SLOT + DistState(len) * 64, 64, 6, LzmaSymbols.AfterSlot(len), goal);
      var distSlot := symbol - 64;
      var dist := Distance(distSlot, goal);
      rep0 := dist;
    }

    /** The part of lzma_match that completes a distance from its slot. */
    method Distance(distSlot: nat, ghost goal: (Outcome, Dec)) returns (dist: Word)
      requires distSlot < 64 && LenOk(len) && On(DistTree(len, distSlot), goal) && OutcomeOk(goal.0)
      modifies rc`range, rc`code, rc`inPos, probs
      ensures goal == (LzmaSymbols.Match(len, dist), D())
    {
      var d := distSlot;
      if distSlot >= DIST_MODEL_START {
        var limit := distSlot / 2 - 1;
        d := 2 + distSlot % 2;
        if distSlot < DIST_MODEL_END {
          d := NearDistance(distSlot, d, limit, goal);
        } else {
          d := FarDistance(d, limit, goal);
        }
      }
      AtLeaf(LzmaSymbols.Match(len, d), D(), Input(), goal);
      dist := d;
    }

    // all the low bits of a distance have their own cells
    method NearDistance(distSlot: nat, top: nat, limit: nat, ghost goal: (Outcome, Dec)) returns (d: nat)
      requires DIST_MODEL_START <= distSlot < DIST_MODEL_END && limit == distSlot / 2 - 1 && top == 2 + distSlot % 2
      requires LenOk(len) && On(DistTree(len, distSlot), goal)
      modifies rc`range, rc`code, rc`inPos, probs
      ensures Input() == old(Input()) && On(MatchLeaf(len)(d), goal)
    {
      SpecialCells(distSlot);
      d := top * Pow2(limit);
      d := rc.BitTreeReverse(probs, DIST_SPECIAL + d - distSlot - 1, d, limit, MatchLeaf(len), goal);
    }

    // direct bits in the middle, and the four lowest bits
    method FarDistance(top: nat, limit: nat, ghost goal: (Outcome, Dec)) returns (d: nat)
      requires 6 <= limit <= 30 && 2 <= top <= 3
      requires LenOk(len) && On(EvenTree(top, limit - 4, AlignTree(len)), goal)
      modifies rc`range, rc`code, rc`inPos, probs
      ensures Input() == old(Input()) && On(MatchLeaf(len)(d), goal)
    {
      d := rc.Direct(probs, top, limit - 4, AlignTree(len), goal);
      d := d * 16;
      d := rc.BitTreeReverse(probs, DIST_ALIGN, d, 4, MatchLeaf(len), goal);
    }

    /** lzma_rep_match: a repeat of one of the four latest distances, which moves to the front. */
    method RepMatch(posState: nat, ghost goal: (Outcome, Dec))
      requires Shape() && posState == Env().posState
      requires On(RepTree(Env()), goal)
      modifies rc`range, rc`code, rc`inPos, probs, `state, `rep0, `rep1, `rep2, `rep3, `len
      ensures goal.1 == D() && OutcomeOk(goal.0) && !goal.0.Lit? && len == RepeatLen(goal.0)
      ensures Lz() == Update(old(Lz()), goal.0)
    {
      EnvOfOk(Properties(), Lz(), dict.hist);
      ghost var t, which := RepTree(Env()), 0;
      var bit := rc.Bit(probs, IS_REP0 + state, t, goal);
      if !bit {
        bit := rc.Bit(probs, IS_REP0_LONG + state * POS_STATES_MAX + posState, t.zero, goal);
        if !bit {
          AtLeaf(ShortRep, D(), Input(), goal);
          state := StateShortRep(state);
          len := 1;
          return;
        }
      } else {
        var tmp;
        bit := rc.Bit(probs, IS_REP1 + state, t.one, goal);
        if !bit {
          which := 1;
          tmp := rep1;
        } else {
          bit := rc.Bit(probs, IS_REP2 + state, t.one.one, goal);
          if !bit {
            which := 2;
            tmp := rep2;
          } else {
            which := 3;
            tmp := rep3;
            rep3 := rep2;
          }
          rep2 := rep1;
        }
        rep1 := rep0;
        rep0 := tmp;
      }
      state := StateLongRep(state);
      len := Len(REP_LEN, posState, RepLeaf(which), goal);
      AtLeaf(LongRep(which, len), D(), Input(), goal);
    }

    /** The body of the loop of lzma_main: decodes one symbol and applies as much of it as fits. */
    method Step() returns (ok: bool)
      requires Valid() && len == 0 && dict.pos < dict.limit <= dict.end
      requires rc.inPos <= rc.inLimit && rc.inLimit + 21 <= rc.input.Length
      requires rc.input != dict.buf
      modifies rc`range, rc`code, rc`inPos, probs, `state, `rep0, `rep1, `rep2, `rep3, `len
      modifies dict`pos, dict`full, dict`hist, dict.buf
      ensures Input() == old(Input())
      ensures ok <==> Symbol(Config(), old(Now()), Input()).Some?
      ensures ok ==> Valid() && Symbol(Config(), old(Now()), Input()).value == Ahead()
      ensures ok ==> old(dict.pos) < dict.pos <= dict.limit && (len > 0 ==> dict.pos == dict.limit)
      ensures dict.pos - old(dict.pos) == |dict.hist| - |old(dict.hist)| && old(dict.hist) <= dict.hist
    {
      ghost var c, m := Config(), Now();
      ghost var goal := StartSymbol();
      ok := StepTo(c, m, goal);
    }

    /** The same, once it is known what the symbol will be. */
    method StepTo(ghost c: Config, ghost m: Machine, ghost goal: (Outcome, Dec)) returns (ok: bool)
      requires Shape() && RingOk(dict, SEAL) && dict.pos < dict.limit <= dict.end && rc.input != dict.buf && len == 0
      requires EnvOk(Env()) && On(SymbolTree(Env()), goal) && OutcomeOk(goal.0) && DecOk(goal.1)
      requires c == Config() && MachineOk(c, m) && m.lz == Lz() && m.hist == dict.hist
      modifies rc`range, rc`code, rc`inPos, probs, `state, `rep0, `rep1, `rep2, `rep3, `len
      modifies dict`pos, dict`full, dict`hist, dict.buf
      ensures Input() == old(Input())
      ensures ok <==> Apply(c, m, goal.0, goal.1).Some?
      ensures ok ==> Valid() && Apply(c, m, goal.0, goal.1).value == Ahead()
      ensures ok ==> old(dict.pos) < dict.pos <= dict.limit && (len > 0 ==> dict.pos == dict.limit)
      ensures dict.pos - old(dict.pos) == |dict.hist| - |old(dict.hist)| && old(dict.hist) <= dict.hist
    {
      ghost var t := SymbolTree(Env());
      var posState := PosState();
      var bit := rc.Bit(probs, IS_MATCH + state * POS_STATES_MAX + posState, t, goal);
      if !bit {
        IsLiteral(c, m, goal);
        ok := true;
      } else {
        ok := NotLiteral(posState, t.one, c, m, goal);
      }
    }

    /** The branch for matches and repeats. */
    method NotLiteral(posState: nat, ghost t: Tree, ghost c: Config, ghost m: Machine, ghost goal: (Outcome, Dec)) returns (ok: bool)
      requires Shape() && RingOk(dict, SEAL) && dict.pos < dict.limit <= dict.end && rc.input != dict.buf
      requires posState == Env().posState && t == Node(Adaptive(IS_REP + state), MatchTree(Env()), RepTree(Env()))
      requires On(t, goal) && OutcomeOk(goal.0) && DecOk(goal.1)
      requires c == Config() && MachineOk(c, m) && m.lz == Lz() && m.hist == dict.hist
      modifies rc`range, rc`code, rc`inPos, probs, `state, `rep0, `rep1, `rep2, `rep3, `len
      modifies dict`pos, dict`full, dict`hist, dict.buf
      ensures Input() == old(Input())
      ensures ok <==> Apply(c, m, goal.0, goal.1).Some?
      ensures ok ==> Valid() && Apply(c, m, goal.0, goal.1).value == Ahead()
      ensures ok ==> old(dict.pos) < dict.pos <= dict.limit && (len > 0 ==> dict.pos == dict.limit)
      ensures dict.pos - old(dict.pos) == |dict.hist| - |old(dict.hist)| && old(dict.hist) <= dict.hist
    {
      var bit := rc.Bit(probs, IS_REP + state, t, goal);
      if bit {
        RepMatch(posState, goal);
      } else {
        Match(posState, goal);
      }
      ok := RepeatMatch(c, m, goal);
    }

    /** The branch for literals. */
    method IsLiteral(ghost c: Config, ghost m: Machine, ghost goal: (Outcome, Dec))
      requires Shape() && RingOk(dict, SEAL) && dict.pos < dict.limit <= dict.end && rc.input != dict.buf && len == 0
      requires On(LiteralTree(Env()), goal) && OutcomeOk(goal.0) && DecOk(goal.1)
      requires c == Config() && MachineOk(c, m) && m.lz == Lz() && m.hist == dict.hist
      modifies rc`range, rc`code, rc`inPos, probs, `state, dict`pos, dict`full, dict`hist, dict.buf
      ensures Input() == old(Input())
      ensures Apply(c, m, goal.0, goal.1).Some?
      ensures Valid() && Apply(c, m, goal.0, goal.1).value == Ahead()
      ensures old(dict.pos) < dict.pos <= dict.limit
      ensures dict.pos - old(dict.pos) == |dict.hist| - |old(dict.hist)| && old(dict.hist) <= dict.hist
    {
      Literal(goal);
      LiteralApplied(c, m, goal);
    }

    /** After `done` bytes of a match have been copied, the rest of it completes the symbol. */
    lemma MatchApplied(c: Config, m: Machine, goal: (Outcome, Dec), done: nat)
      requires Shape() && RingOk(dict, SEAL) && c == Config()
      requires MachineOk(c, m) && OutcomeOk(goal.0) && DecOk(goal.1) && !goal.0.Lit?
      requires goal.1 == D() && Lz() == Update(m.lz, goal.0) && done + len == RepeatLen(goal.0)
      requires DistOk(m.hist, rep0, c.size) && dict.hist == CopyMatch(m.hist, rep0, done)
      ensures Valid() && Apply(c, m, goal.0, goal.1) == Some(Ahead())
    {
      CopyMatchResumes(m.hist, rep0, done, len);
    }

    lemma LiteralApplied(c: Config, m: Machine, goal: (Outcome, Dec))
      requires Shape() && RingOk(dict, SEAL) && c == Config() && len == 0
      requires MachineOk(c, m) && goal.0.Lit? && DecOk(goal.1)
      requires goal.1 == D() && Lz() == Update(m.lz, goal.0) && dict.hist == m.hist + [goal.0.value]
      ensures Valid() && Apply(c, m, goal.0, goal.1) == Some(Ahead())
    {
    }

    lemma MatchFits(c: Config, m: Machine, goal: (Outcome, Dec))
      requires MachineOk(c, m) && OutcomeOk(goal.0) && DecOk(goal.1) && !goal.0.Lit?
      ensures Apply(c, m, goal.0, goal.1).Some? <==> DistOk(m.hist, Update(m.lz, goal.0).rep0, c.size)
    {
    }

    /** lzma_main after a match: copies what fits, or fails if the distance is invalid. */
    method RepeatMatch(ghost c: Config, ghost m: Machine, ghost goal: (Outcome, Dec)) returns (ok: bool)
      requires Shape() && RingOk(dict, SEAL) && dict.pos < dict.limit <= dict.end
      requires c == Config() && MachineOk(c, m) && OutcomeOk(goal.0) && DecOk(goal.1) && !goal.0.Lit?
      requires goal.1 == D() && Lz() == Update(m.lz, goal.0) && len == RepeatLen(goal.0) && dict.hist == m.hist
      requires rc.input != dict.buf
      modifies `len, dict`pos, dict`full, dict`hist, dict.buf
      ensures Input() == old(Input())
      ensures ok <==> Apply(c, m, goal.0, goal.1).Some?
      ensures ok ==> Valid() && Apply(c, m, goal.0, goal.1).value == Ahead()
      ensures ok ==> old(dict.pos) < dict.pos <= dict.limit && (len > 0 ==> dict.pos == dict.limit)
      ensures dict.pos - old(dict.pos) == |dict.hist| - |old(dict.hist)| && old(dict.hist) <= dict.hist
    {
      ghost var total := len;
      MatchFits(c, m, goal);
      ok := RepeatPending();
      if ok {
        MatchApplied(c, m, goal, total - len);
      }
    }

    // dict_repeat for the rest of a match, as far as there is room
    method RepeatPending() returns (ok: bool)
      requires RingOk(dict, SEAL) && dict.pos < dict.limit <= dict.end && len > 0
      modifies `len, dict`pos, dict`full, dict`hist, dict.buf
      ensures RingOk(dict, SEAL) && len <= old(len) && (ok <==> DistOk(old(dict.hist), rep0, dict.size))
      ensures ok ==> dict.hist == CopyMatch(old(dict.hist), rep0, old(len) - len)
      ensures ok ==> old(dict.pos) < dict.pos <= dict.limit && (len > 0 ==> dict.pos == dict.limit)
      ensures dict.pos - old(dict.pos) == |dict.hist| - |old(dict.hist)| && old(dict.hist) <= dict.hist
    {
      RingOkIs(dict);
      ok, len := dict.Repeat(len, rep0);
      RingOkIs(dict);
    }

    /** There is room in the input to follow any symbol to its end. */
    lemma StartSymbol() returns (goal: (Outcome, Dec))
      requires Valid() && rc.inPos <= rc.inLimit && rc.inLimit + 21 <= rc.input.Length
      ensures EnvOk(Env()) && On(SymbolTree(Env()), goal)
      ensures OutcomeOk(goal.0) && DecOk(goal.1)
      ensures Symbol(Config(), Now(), Input()) == Apply(Config(), Now(), goal.0, goal.1)
    {
      SymbolIs(Config(), Now(), Input());
      SymbolTreeFits(Env());
      SymbolRoom(rc.range);
      RoomMore(rc.range, 22, 26, 21, rc.input.Length - rc.inPos);
      RoomIsSafe(SymbolTree(Env()), D(), Input(), 22, 26);
      goal := Run(SymbolTree(Env()), D(), Input());
      Unsealed(SymbolTree(Env()), D(), Input(), goal);
    }

    /** lzma_main: finishes a pending repeat, then decodes symbols until the dictionary limit is reached or
        there may not be enough input for another one, and normalizes. Seen from outside it performs
        `n` rounds of the machine. On failure the round after them meets an invalid distance. */
    method LzmaMain() returns (ok: bool, ghost n: nat, ghost last: Machine)
      requires Sound(this, SEAL) && rc.input != dict.buf && dict.pos <= dict.limit <= dict.end
      requires rc.inLimit + 21 <= rc.input.Length && rc.inPos <= rc.inLimit + 21 && TOP <= rc.range
      modifies rc`range, rc`code, rc`inPos, probs, `state, `rep0, `rep1, `rep2, `rep3, `len
      modifies dict`pos, dict`full, dict`hist, dict.buf
      ensures Input() == old(Input()) && Grown(old(dict.pos), old(dict.hist))
      ensures Went(Config(), old(Ahead()), Input(), n, |old(dict.hist)| + old(dict.limit - dict.pos), rc.inLimit + 1, last, ok, SEAL)
      ensures ok ==>
        && Sound(this, SEAL) && dict.pos <= dict.limit && last == Ahead() && TOP <= rc.range && rc.inPos <= rc.inLimit + 21
        && (dict.pos == dict.limit || rc.inPos > rc.inLimit) && (len > 0 ==> dict.pos == dict.limit)
        && (old(dict.pos < dict.limit && (len > 0 || rc.inPos <= rc.inLimit)) ==> dict.pos > old(dict.pos))
    {
      if dict.pos < dict.limit && len > 0 {
        FinishRepeat();
      }
      ok, n, last := DecodeSymbols();
      if ok {
        FinalNormalize();
      }
    }

    /** The normalization at the end of lzma_main. */
    method FinalNormalize()
      requires Sound(this, SEAL) && (rc.range < TOP ==> rc.inPos < rc.input.Length)
      modifies rc`range, rc`code, rc`inPos
      ensures Sound(this, SEAL) && Ahead() == NormalizeMachine(old(Ahead()), Input()) && TOP <= rc.range
      ensures rc.inPos == old(rc.inPos) + (if old(rc.range) < TOP then 1 else 0)
    {
      SoundIs();
      rc.Normalize(probs);
      SoundIs();
    }

    // All that was decoded since is at the end of the history.
    ghost predicate Grown(pos: nat, hist: seq<byte>)
      reads dict`pos, dict`hist
    {
      hist <= dict.hist && dict.pos - pos == |dict.hist| - |hist|
    }

    /** The loop of lzma_main. */
    method DecodeSymbols() returns (ok: bool, ghost n: nat, ghost last: Machine)
      requires Sound(this, SEAL) && rc.input != dict.buf && dict.pos <= dict.limit <= dict.end && (len > 0 ==> dict.pos == dict.limit)
      requires rc.inLimit + 21 <= rc.input.Length && rc.inPos <= rc.inLimit + 21 && TOP <= rc.range
      modifies rc`range, rc`code, rc`inPos, probs, `state, `rep0, `rep1, `rep2, `rep3, `len
      modifies dict`pos, dict`full, dict`hist, dict.buf
      ensures Input() == old(Input()) && Grown(old(dict.pos), old(dict.hist))
      ensures Went(Config(), old(Ahead()), Input(), n, |old(dict.hist)| + old(dict.limit - dict.pos), rc.inLimit + 1, last, ok, SEAL)
      ensures ok ==> Sound(this, SEAL) && dict.pos <= dict.limit && last == NormalizeMachine(Ahead(), Input())
      ensures ok ==> rc.inPos <= rc.inLimit + 21 && (rc.range < TOP ==> rc.inPos <= rc.inLimit + 20)
      ensures ok ==> (dict.pos == dict.limit || rc.inPos > rc.inLimit) && (len > 0 ==> dict.pos == dict.limit)
      ensures ok && old(dict.pos < dict.limit && rc.inPos <= rc.inLimit) ==> dict.pos > old(dict.pos)
    {
      ghost var m0, inp := Ahead(), Input();
      ghost var bound, lim := |dict.hist| + (dict.limit - dict.pos), rc.inLimit + 1;
      ghost var pos0, hist0, inPos0 := dict.pos, dict.hist, rc.inPos;
      n, last, ok := 0, m0, true;
      NoRounds(bound, lim);
      while dict.pos < dict.limit && rc.inPos <= rc.inLimit
        invariant Input() == inp && Grown(pos0, hist0)
        invariant Sound(this, SEAL) && dict.pos <= dict.limit && (len > 0 ==> dict.pos == dict.limit)
        invariant dict.pos > pos0 || (dict.pos == pos0 && rc.inPos == inPos0)
        invariant rc.inPos <= rc.inLimit + 21 && (rc.range < TOP ==> rc.inPos <= rc.inLimit + 20)
        invariant Went(Config(), m0, inp, n, bound, lim, last, true, SEAL) && last == NormalizeMachine(Ahead(), inp)
        decreases dict.limit - dict.pos
      {
        ok, n, last := OneSymbol(pos0, hist0, m0, n, bound, lim, last);
        if !ok {
          return;
        }
      }
    }

    /** One round of that loop. */
    method OneSymbol(ghost pos0: nat, ghost hist0: seq<byte>, ghost m0: Machine, ghost n: nat, ghost bound: int, ghost lim: int, ghost last: Machine)
        returns (ok: bool, ghost n': nat, ghost last': Machine)
      requires Sound(this, SEAL) && len == 0 && dict.pos < dict.limit <= dict.end && rc.input != dict.buf
      requires rc.inPos <= rc.inLimit && rc.inLimit + 21 <= rc.input.Length
      requires Went(Config(), m0, Input(), n, bound, lim, last, true, SEAL) && last == NormalizeMachine(Ahead(), Input())
      requires Grown(pos0, hist0) && bound > |dict.hist| && lim == rc.inLimit + 1
      modifies rc`range, rc`code, rc`inPos, probs, `state, `rep0, `rep1, `rep2, `rep3, `len
      modifies dict`pos, dict`full, dict`hist, dict.buf
      ensures Input() == old(Input()) && Grown(pos0, hist0) && |dict.hist| - dict.pos == old(|dict.hist| - dict.pos)
      ensures Went(Config(), m0, Input(), n', bound, lim, last', ok, SEAL)
      ensures ok ==> Sound(this, SEAL) && old(dict.pos) < dict.pos <= dict.limit && (len > 0 ==> dict.pos == dict.limit)
      ensures ok ==> rc.inPos <= rc.inLimit + 21 && (rc.range < TOP ==> rc.inPos <= rc.inLimit + 20)
      ensures ok ==> last' == NormalizeMachine(Ahead(), Input())
    {
      SoundIs();
      ghost var c, m, inp := Config(), Now(), Input();
      RoundFrom(c, m, inp);
      ok := Step();
      WentFurther(c, m0, inp, n, bound, lim, m);
      n', last' := n, last;
      if ok {
        SoundIs();
        n', last' := n + 1, NormalizeMachine(Ahead(), inp);
      }
    }

    lemma NoRounds(bound: int, lim: int)
      requires Sound(this, SEAL) && TOP <= rc.range
      ensures Went(Config(), Ahead(), Input(), 0, bound, lim, Ahead(), true, SEAL)
      ensures Ahead() == NormalizeMachine(Ahead(), Input())
    {
      SoundIs();
      WentIs(Config(), Ahead(), Input(), 0, bound, lim, Ahead(), true);
    }

    lemma SoundIs()
      ensures Sound(this, SEAL) <==> Valid()
    {
      assert Sound(this, 3) <==> Sound(this, 2);
      assert Sound(this, 2) <==> Sound(this, 1);
      assert Sound(this, 1) <==> Sound(this, 0);
    }

    /** Copies what fits of a pending match; from outside nothing has changed. */
    method FinishRepeat()
      requires Sound(this, SEAL) && rc.input != dict.buf && dict.pos < dict.limit <= dict.end && len > 0
      modifies `len, dict`pos, dict`full, dict`hist, dict.buf
      ensures Input() == old(Input()) && Sound(this, SEAL) && Ahead() == old(Ahead())
      ensures (len > 0 ==> dict.pos == dict.limit) && old(dict.pos) < dict.pos <= dict.limit
      ensures Grown(old(dict.pos), old(dict.hist))
    {
      SoundIs();
      Resume();
      SoundIs();
    }

    method Resume()
      requires Valid() && rc.input != dict.buf && dict.pos < dict.limit <= dict.end && len > 0
      modifies `len, dict`pos, dict`full, dict`hist, dict.buf
      ensures Input() == old(Input()) && Valid() && Ahead() == old(Ahead())
      ensures (len > 0 ==> dict.pos == dict.limit) && old(dict.pos) < dict.pos <= dict.limit
      ensures Grown(old(dict.pos), old(dict.hist))
    {
      ghost var h, total := dict.hist, len;
      var ok := RepeatPending();
      CompletedResumes(h, rep0, total - len, len);
    }

    /** lzma_reset */
    method Reset()
      requires probs.Length == PROBS_TOTAL
      modifies `state, `rep0, `rep1, `rep2, `rep3, probs, rc`range, rc`code, rc`initBytesLeft
      ensures Lz() == LzReset() && probs[..] == FreshProbs()
      ensures rc.range == TWO32 - 1 && rc.code == 0 && rc.initBytesLeft == 5
    {
      state, rep0, rep1, rep2, rep3 := 0, 0, 0, 0, 0;
      var i := 0;
      while i < PROBS_TOTAL
        invariant i <= PROBS_TOTAL
        invariant forall j :: 0 <= j < i ==> probs[j] == 1024
        invariant Lz() == LzReset()
      {
        probs[i] := 1024;
        i := i + 1;
      }
      rc.Reset();
    }

    /** lzma_props: takes the property byte apart by repeated subtraction. */
    method SetProps(props: byte) returns (ok: bool)
      requires probs.Length == PROBS_TOTAL
      modifies `lc, `literalPosMask, `posMask, `lp, `pb
      modifies `state, `rep0, `rep1, `rep2, `rep3, probs, rc`range, rc`code, rc`initBytesLeft
      ensures ok <==> PropsByteOk(props)
      ensures ok ==> Shape() && Properties() == PropsOf(props) && Lz() == LzReset() && probs[..] == FreshProbs()
      ensures ok ==> rc.range == TWO32 - 1 && rc.code == 0 && rc.initBytesLeft == 5
    {
      if props > (4 * 5 + 4) * 9 + 8 {
        return false;
      }
      ok := Divide(props);
      if ok {
        Reset();
      }
    }

    method Divide(props: byte) returns (ok: bool)
      requires props <= (4 * 5 + 4) * 9 + 8
      modifies `lc, `literalPosMask, `posMask, `lp, `pb
      ensures ok <==> PropsByteOk(props)
      ensures ok ==> Properties() == PropsOf(props) && PropsOk(Properties())
      ensures ok ==> literalPosMask + 1 == Pow2(lp) && posMask + 1 == Pow2(pb)
    {
      var p: nat;
      p, posMask := Subtract(props, 9 * 5);
      pb := posMask;
      posMask := Pow2(posMask) - 1;
      p, literalPosMask := Subtract(p, 9);
      lc := p;
      lp := literalPosMask;
      DivModIs(props / 9, 5, pb, lp);
      ok := lc + literalPosMask <= 4;
      literalPosMask := Pow2(literalPosMask) - 1;
    }

    static method Subtract(x: nat, d: nat) returns (rest: nat, times: nat)
      requires d > 0
      ensures rest == x % d && times == x / d
    {
      rest, times := x, 0;
      while rest >= d
        invariant rest + d * times == x
      {
        rest, times := rest - d, times + 1;
      }
      DivModIs(x, d, times, rest);
    }
  }

  // LzmaDec.Valid, kept from being unfolded; LzmaDec.SoundIs leads there and back.
  ghost predicate Sound(l: LzmaDec, seal: nat)
    reads l, l.rc`range, l.rc`code, l.probs, l.dict.buf
    reads l.dict`start, l.dict`pos, l.dict`full, l.dict`end, l.dict`size, l.dict`hist, l.dict`laps, l.dict`units
    decreases seal, l
  {
    if seal == 0 then l.Valid() else Sound(l, seal - 1)
  }

  lemma EightOrThree()
    ensures Pow2(3) == 8 && Pow2(8) == 256
  {
  }

  lemma SixtyFour()
    ensures Pow2(6) == 64
  {
  }

  // Dict.Valid, kept from being unfolded.
  ghost predicate RingOk(d: Dict, seal: nat)
    reads d`start, d`pos, d`full, d`end, d`size, d`hist, d`laps, d`units, d.buf
    decreases seal, d
  {
    if seal == 0 then d.Valid() else RingOk(d, seal - 1)
  }

  lemma RingOkIs(d: Dict)
    ensures RingOk(d, SEAL) <==> d.Valid()
  {
    assert RingOk(d, 3) <==> RingOk(d, 2);
    assert RingOk(d, 2) <==> RingOk(d, 1);
    assert RingOk(d, 1) <==> RingOk(d, 0);
  }
}
