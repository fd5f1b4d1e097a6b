/**
 Decoding one whole LZMA symbol: `Run` follows a decision tree to a leaf. Proved here: a symbol reads
 at most 20 bytes (LZMA_IN_REQUIRED), what it yields is in range, it depends on nothing but the bytes
 it reads, and reading one byte ahead of time changes nothing.
 */
module LzmaRun {
  import opened RangeBounds
  import opened RangeCoder
  import opened Words
  import opened LzmaLayout
  import opened LzmaSymbols

  ghost predicate DecOk(d: Dec) {
    Healthy(d) && |d.probs| == PROBS_TOTAL
  }

  ghost predicate InTable(t: Tree) {
    match t
    case Leaf(_) => true
    case Node(q, zero, one) => (q.Adaptive? ==> q.index < PROBS_TOTAL) && InTable(zero) && InTable(one)
  }

  lemma FitsInTable(t: Tree, a: nat, d: nat)
    requires Fits(t, a, d)
    ensures InTable(t)
  {
  }

  function Decide(q: Query, d: Dec, inp: seq<byte>): (bool, Dec)
    requires q.Adaptive? ==> q.index < |d.probs|
  {
    match q
    case Adaptive(i) => DecodeBit(d, i, inp)
    case Even => DecodeDirect(d, inp)
  }

  function Run(t: Tree, d: Dec, inp: seq<byte>): (Outcome, Dec)
    requires InTable(t) && |d.probs| == PROBS_TOTAL
  {
    match t
    case Leaf(o) => (o, d)
    case Node(q, _, _) =>
      var (bit, d') := Decide(q, d, inp);
      Run(Child(t, bit), d', inp)
  }

  lemma DecideOk(q: Query, d: Dec, inp: seq<byte>)
    requires DecOk(d) && (q.Adaptive? ==> q.index < PROBS_TOTAL)
    ensures DecOk(Decide(q, d, inp).1)
    ensures d.pos <= Decide(q, d, inp).1.pos == Normalize(d, inp).pos <= d.pos + 1
    ensures TOP <= Normalize(d, inp).range
    ensures var n, d' := Normalize(d, inp), Decide(q, d, inp).1;
      if q.Adaptive? then d'.range >= n.range / 2048 * 31 else d'.range == n.range / 2
  {
    DecisionKeepsHealthy(d, if q.Adaptive? then q.index else 0, inp);
  }

  lemma RunGrows(t: Tree, d: Dec, inp: seq<byte>)
    requires InTable(t) && DecOk(d)
    ensures DecOk(Run(t, d, inp).1) && d.pos <= Run(t, d, inp).1.pos
  {
    if t.Node? {
      var (bit, d') := Decide(t.query, d, inp);
      DecideOk(t.query, d, inp);
      RunGrows(Child(t, bit), d', inp);
    }
  }

  // ---- how many bytes a symbol reads

  /** Charging one decision: after it, the room for `(a, b)` decisions has become room for what is left. */
  lemma ChargeDecision(q: Query, d: Dec, inp: seq<byte>, e: int, a: nat, b: nat)
    requires DecOk(d) && (q.Adaptive? ==> q.index < PROBS_TOTAL)
    requires Room(d.range, a, b, e - d.pos)
    ensures var d' := Decide(q, d, inp).1;
      && d'.pos <= e
      && (q.Adaptive? && a >= 1 ==> Room(d'.range, a - 1, b, e - d'.pos))
      && (q.Adaptive? && a >= 1 && b == 26 ==> Room(d'.range, a, 0, e - d'.pos))
      && (q.Even? && b >= 1 ==> Room(d'.range, a, b - 1, e - d'.pos))
  {
    DecideOk(q, d, inp);
    var n, d' := Normalize(d, inp), Decide(q, d, inp).1;
    if d.range < TOP {
      RoomNormalize(d.range, a, b, e - d.pos);
    }
    if q.Adaptive? && a >= 1 {
      RoomAdaptive(n.range, d'.range, a, b, e - n.pos);
      if b == 26 {
        RoomTrade(d'.range, a - 1, e - n.pos);
      }
    } else if q.Even? && b >= 1 {
      RoomDirect(n.range, d'.range, a, b, e - n.pos);
    }
  }

  /** A symbol, together with the normalization that may follow it, reads nothing from `e` on if there is
      room for it up to `e` ... */
  lemma {:induction false} RunRoom(t: Tree, d: Dec, inp: seq<byte>, e: int, a: nat, b: nat)
    requires InTable(t) && Fits(t, a, b) && DecOk(d) && Room(d.range, a, b, e - d.pos)
    ensures var (o, d') := Run(t, d, inp);
      OutcomeOk(o) && DecOk(d') && d.pos <= d'.pos <= e && Room(d'.range, 0, 0, e - d'.pos)
    decreases t
  {
    match t
    case Leaf(_) => RoomWeaken(d.range, a, b, 0, 0, e - d.pos);
    case Node(q, _, _) =>
      var (bit, d') := Decide(q, d, inp);
      DecideOk(q, d, inp);
      ChargeDecision(q, d, inp, e, a, b);
      var c := Child(t, bit);
      if q.Even? {
        RunRoom(c, d', inp, e, a, b - 1);
      } else if Fits(c, a - 1, b) {
        RunRoom(c, d', inp, e, a - 1, b);
      } else {
        RunRoom(c, d', inp, e, a, 0);
      }
  }

  /** ... and the symbol alone can do with the room for one adaptive decision less. */
  lemma {:induction false} RunRoomBarely(t: Tree, d: Dec, inp: seq<byte>, e: int, a: nat, b: nat)
    requires InTable(t) && t.Node? && Fits(t, a, b) && DecOk(d)
    requires a >= 1 && Room(d.range, a - 1, b, e - d.pos)
    ensures Run(t, d, inp).1.pos <= e
    decreases t
  {
    var (bit, d') := Decide(t.query, d, inp);
    DecideOk(t.query, d, inp);
    ChargeDecision(t.query, d, inp, e, a - 1, b);
    var c := Child(t, bit);
    if c.Node? {
      if t.query.Even? {
        RunRoomBarely(c, d', inp, e, a, b - 1);
      } else if Fits(c, a - 1, b) {
        RunRoomBarely(c, d', inp, e, a - 1, b);
      } else {
        RunRoomBarely(c, d', inp, e, a, 0);
      }
    }
  }

  /** The bound at LZMA_IN_REQUIRED: a symbol reads at most 20 bytes, and the normalization after it at
      most one more, whatever the probabilities have become. */
  lemma SymbolReadsAtMost20(d: Dec, env: Env, inp: seq<byte>)
    requires EnvOk(env) && DecOk(d)
    ensures InTable(SymbolTree(env))
    ensures var (o, d') := Run(SymbolTree(env), d, inp);
      && OutcomeOk(o) && DecOk(d')
      && d.pos <= d'.pos <= d.pos + 20
      && Normalize(d', inp).pos <= d.pos + 21
  {
    var t := SymbolTree(env);
    SymbolTreeFits(env);
    FitsInTable(t, 22, 26);
    SymbolRoom(d.range);
    RunRoomBarely(t, d, inp, d.pos + 20, 22, 26);
    RunRoom(t, d, inp, d.pos + 21, 22, 26);
  }

  // ---- what a symbol depends on

  // Two inputs hold the same bytes, at a fixed displacement, from `lo` up to `hi`.
  ghost predicate SameBytes(inp: seq<byte>, inp': seq<byte>, lo: nat, hi: int, delta: int)
    requires lo + delta >= 0
  {
    forall i :: lo <= i < hi ==> At(inp, i) == At(inp', i + delta)
  }

  function Moved(d: Dec, delta: int): Dec
    requires d.pos + delta >= 0
  {
    d.(pos := d.pos + delta)
  }

  /** Decoding depends only on the bytes that it reads: the same bytes elsewhere give the same symbol. */
  lemma {:induction false} RunLocal(t: Tree, d: Dec, inp: seq<byte>, inp': seq<byte>, delta: int)
    requires InTable(t) && DecOk(d) && d.pos + delta >= 0
    requires SameBytes(inp, inp', d.pos, Run(t, d, inp).1.pos, delta)
    ensures d.pos <= Run(t, d, inp).1.pos
    ensures Run(t, Moved(d, delta), inp') == (Run(t, d, inp).0, Moved(Run(t, d, inp).1, delta))
    decreases t
  {
    if t.Node? {
      var (bit, d') := Decide(t.query, d, inp);
      DecideOk(t.query, d, inp);
      RunGrows(Child(t, bit), d', inp);
      assert Normalize(Moved(d, delta), inp') == Moved(Normalize(d, inp), delta);
      assert Decide(t.query, Moved(d, delta), inp') == (bit, Moved(d', delta));
      RunLocal(Child(t, bit), d', inp, inp', delta);
    }
  }

  lemma NormalizeTwice(d: Dec, inp: seq<byte>)
    requires Healthy(d)
    ensures Normalize(Normalize(d, inp), inp) == Normalize(d, inp)
  {
  }

  /** Normalizing before a symbol instead of at its first decision changes nothing. */
  lemma NormalizeFirst(t: Tree, d: Dec, inp: seq<byte>)
    requires InTable(t) && t.Node? && DecOk(d)
    ensures Run(t, Normalize(d, inp), inp) == Run(t, d, inp)
  {
    NormalizeTwice(d, inp);
  }
}
