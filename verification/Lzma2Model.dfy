/**
 The LZMA2 layer on values: a machine that walks over the whole compressed stream, one control byte, one
 LZMA symbol or one copied byte at a time. It knows nothing of buffers or calls; what it has produced at
 the end is what the stream means (compat/xz_dec_lzma2.c, "LZMA2").
 */
module Lzma2Model {
  import opened Arithmetic
  import opened Common
  import opened RangeBounds
  import opened RangeCoder
  import opened Words
  import opened LzmaLayout
  import opened LzmaSymbols
  import opened LzmaRun
  import opened LzmaModel

  /** The dictionary size that the property byte of the filter stands for. */
  function DictSize(props: byte): nat {
    (2 + props % 2) * Pow2(props / 2 + 11)
  }

  /** Powers of two from 4 KiB on, and one and a half times as much. */
  lemma DictSizes(k: nat)
    requires k < 100
    ensures DictSize(0) == 0x1000 && DictSize(2 * k + 1) * 2 == DictSize(2 * k) * 3
    ensures k > 0 ==> DictSize(2 * k) == 2 * DictSize(2 * (k - 1))
  {
    assert Pow2(11) == 0x800;
    assert (2 * k + 1) / 2 == k && 2 * k / 2 == k;
  }

  // where a chunk header leads to (next_sequence)
  datatype Next = ToProperties | ToPrepare | ToCopy

  // How far the chunk layer has got; `u` bytes are still to be decoded, `c` to be read, in this chunk.
  datatype Place =
    | Control
    | Uncompressed1(u: nat, next: Next)
    | Uncompressed2(u: nat, next: Next)
    | Compressed0(u: nat, next: Next)
    | Compressed1(u: nat, c: nat, next: Next)
    | Properties(u: nat, c: nat)
    | Prepare(u: nat, c: nat, left: nat)
    | LzmaRun(togo: int, c: nat)
    | Copy(c: nat)
    | Finished
    | Failed

  // what a chunk must bring along before LZMA symbols can be decoded
  datatype Need = DictReset | NewProperties | Nothing

  /** `before` is what was produced before the last dictionary reset, `m.hist` what came after it, and
      `m.d.pos` how much of the stream has been read. */
  datatype Lzma2 = Lzma2(place: Place, need: Need, props: Props, m: Machine, before: seq<byte>)

  function NoProps(): Props { Props(0, 0, 0) }

  // No LZMA state: the next LZMA chunk brings a new one.
  function Blank(pos: nat, hist: seq<byte>): Machine {
    Machine(Dec(0, 0, [], pos), LzReset(), hist)
  }

  function Start(): Lzma2 {
    Lzma2(Control, DictReset, NoProps(), Blank(0, []), [])
  }

  /** Everything produced so far. */
  function Produced(s: Lzma2): seq<byte> {
    s.before + s.m.hist
  }

  predicate AwaitsProperties(p: Place) {
    match p
    case Uncompressed1(_, n) => n.ToProperties?
    case Uncompressed2(_, n) => n.ToProperties?
    case Compressed0(_, n) => n.ToProperties?
    case Compressed1(_, _, n) => n.ToProperties?
    case Properties(_, _) => true
    case _ => false
  }

  // There is an LZMA state to go on from.
  predicate Live(s: Lzma2) {
    s.need.Nothing? && !AwaitsProperties(s.place) && !s.place.Finished? && !s.place.Failed?
  }

  // An LZMA chunk without new properties is under way.
  predicate InLzma(p: Place) {
    match p
    case Uncompressed1(_, n) => n.ToPrepare?
    case Uncompressed2(_, n) => n.ToPrepare?
    case Compressed0(_, n) => n.ToPrepare?
    case Compressed1(_, _, n) => n.ToPrepare?
    case Prepare(_, _, _) => true
    case LzmaRun(_, _) => true
    case _ => false
  }

  ghost predicate Lzma2Ok(size: nat, s: Lzma2) {
    && (InLzma(s.place) ==> Live(s))
    && (AwaitsProperties(s.place) ==> s.need.Nothing?)
    && (Live(s) ==> MachineOk(Config(s.props, size), s.m) && TOP <= s.m.d.range)
  }

  // ---- the pieces of a step

  function Read1(m: Machine): Machine { m.(d := m.d.(pos := m.d.pos + 1)) }

  // rc_reset
  function RcReset(m: Machine): Machine {
    m.(d := m.d.(range := TWO32 - 1, code := 0))
  }

  // lzma_reset
  function LzmaReset(m: Machine): Machine {
    Machine(Dec(TWO32 - 1, 0, FreshProbs(), m.d.pos), LzReset(), m.hist)
  }

  /** SEQ_CONTROL */
  function ControlByte(s: Lzma2, b: byte): Lzma2 {
    var s1 := s.(m := Read1(s.m));
    if b == 0 then s1.(place := Finished)
    else if b >= 0xE0 || b == 1 then ChunkHeader(StartOver(s1), b)
    else if s.need.DictReset? then s1.(place := Failed)
    else ChunkHeader(s1, b)
  }

  /** Which control bytes are refused: 3 to 0x7F always; before any dictionary reset all but 0, 1 and those that make
      one; and as long as there are no properties since, those of compressed chunks that bring none. */
  lemma RefusedControls(s: Lzma2, b: byte)
    ensures ControlByte(s, b).place.Failed? <==>
      || 3 <= b < 0x80
      || (s.need.DictReset? && b != 0 && b != 1 && b < 0xE0)
      || (s.need.NewProperties? && 0x80 <= b < 0xC0)
    ensures ControlByte(s, b).place.Finished? <==> b == 0
  {
  }

  /** What the others lead to: a new dictionary, and what is known then. */
  lemma AcceptedControls(s: Lzma2, b: byte)
    requires b != 0 && !ControlByte(s, b).place.Failed?
    ensures var r := ControlByte(s, b);
      && r.m.d.pos == s.m.d.pos + 1 && Produced(r) == Produced(s)
      && (b == 1 || b >= 0xE0 ==> r.m.hist == [])
      && (b != 1 && b < 0xE0 ==> r.m.hist == s.m.hist && r.before == s.before)
      && r.need == (if b >= 0x80 then Nothing else if b == 1 then NewProperties else s.need)
      && (r.place.Compressed0? <==> b < 0x80) && (b >= 0x80 ==> r.place.Uncompressed1?)
      && (0x80 <= b < 0xA0 ==> r.m.lz == s.m.lz && r.m.d.probs == s.m.d.probs && r.props == s.props)
      && (0xA0 <= b < 0xC0 ==>
           r.m.lz == Lz(0, 0, 0, 0, 0) && r.props == s.props && forall i :: 0 <= i < |r.m.d.probs| ==> r.m.d.probs[i] == 1024)
  {
    assert Produced(s) + [] == Produced(s);
  }

  /** The end of a chunk is good if it has decoded as much as it said, from as many bytes as it said, down to code 0. */
  lemma GoodEnds(s: Lzma2)
    requires s.place.LzmaRun?
    ensures s.place.togo <= 0 ==> (ChunkEnd(s).place == Control <==> s.place.togo == 0 && s.place.c == 0 && s.m.d.code == 0)
    ensures var r := ChunkEnd(s);
      r.place == Control ==> r.m.d.range == 0xFFFF_FFFF && r.m.d.code == 0 && r.m.hist == s.m.hist && r.m.lz == s.m.lz && r.m.d.probs == s.m.d.probs
  {
  }

  /** New properties bring a fresh state. */
  lemma FreshState(s: Lzma2, b: byte)
    requires s.place.Properties?
    ensures PropertyByte(s, b).place.Failed? <==> !PropsByteOk(b)
    ensures var r := PropertyByte(s, b);
      PropsByteOk(b) ==>
        && r.m.d.range == 0xFFFF_FFFF && r.m.d.code == 0 && r.m.lz == Lz(0, 0, 0, 0, 0) && r.m.hist == s.m.hist
        && |r.m.d.probs| == PROBS_TOTAL && forall i :: 0 <= i < PROBS_TOTAL ==> r.m.d.probs[i] == 1024
  {
  }

  // a dictionary reset
  function StartOver(s: Lzma2): Lzma2 {
    Lzma2(s.place, NewProperties, NoProps(), Blank(s.m.d.pos, []), Produced(s))
  }

  // the rest of what the control byte says
  function ChunkHeader(s: Lzma2, b: byte): Lzma2 {
    if b >= 0xC0 then
      Lzma2(Uncompressed1(b % 32 * 65536, ToProperties), Nothing, NoProps(), Blank(s.m.d.pos, s.m.hist), s.before)
    else if b >= 0x80 then
      if s.need.NewProperties? then s.(place := Failed)
      else s.(place := Uncompressed1(b % 32 * 65536, ToPrepare), m := if b >= 0xA0 then LzmaReset(s.m) else s.m)
    else if b > 2 then s.(place := Failed)
    else s.(place := Compressed0(0, ToCopy))
  }

  /** SEQ_UNCOMPRESSED_1 to SEQ_COMPRESSED_1 */
  function SizeByte(p: Place, b: byte): Place
    requires p.Uncompressed1? || p.Uncompressed2? || p.Compressed0? || p.Compressed1?
  {
    match p
    case Uncompressed1(u, n) => Uncompressed2(u + b * 256, n)
    case Uncompressed2(u, n) => Compressed0(u + b + 1, n)
    case Compressed0(u, n) => Compressed1(u, b * 256, n)
    case Compressed1(u, c, ToProperties) => Properties(u, c + b + 1)
    case Compressed1(u, c, ToPrepare) => Prepare(u, c + b + 1, 5)
    case Compressed1(u, c, ToCopy) => Copy(c + b + 1)
  }

  /** SEQ_PROPERTIES */
  function PropertyByte(s: Lzma2, b: byte): Lzma2
    requires s.place.Properties?
  {
    if PropsByteOk(b) then
      s.(place := Prepare(s.place.u, s.place.c, 5), props := PropsOf(b), m := LzmaReset(Read1(s.m)))
    else s.(place := Failed)
  }

  /** One round of rc_read_init; the first LZMA symbol follows the last one. */
  function InitByte(s: Lzma2, b: byte): Lzma2
    requires s.place.Prepare? && s.place.c >= 5
  {
    var p, d := s.place, s.m.d;
    s.(place := if p.left <= 1 then LzmaRun(p.u, p.c - 5) else p.(left := p.left - 1),
       m := s.m.(d := d.(code := (d.code * 256 + b) % TWO32, pos := d.pos + 1)))
  }

  // The compressed data of a chunk ends at `end`; what lies behind reads as zero.
  function Upto(stream: seq<byte>, end: nat): seq<byte> {
    if end <= |stream| then stream[..end] else stream
  }

  /** The sizes in a chunk header, high byte first, are less by one than those they stand for; 21 bits of the size of the
      data of a compressed chunk begin in its control byte. */
  lemma ChunkSizes(s: Lzma2, b0: byte, b1: byte, b2: byte, b3: byte, b4: byte)
    requires s.place.Control? && !ControlByte(s, b0).place.Failed? && b0 != 0
    ensures b0 < 0x80 ==>
      SizeByte(SizeByte(ControlByte(s, b0).place, b1), b2) == Copy(0x100 * b1 as int + b2 + 1)
    ensures b0 >= 0x80 ==>
      var u := 0x1_0000 * (b0 % 0x20) as int + 0x100 * b1 as int + b2 + 1;
      var c := 0x100 * b3 as int + b4 + 1;
      SizeByte(SizeByte(SizeByte(SizeByte(ControlByte(s, b0).place, b1), b2), b3), b4)
        == if b0 >= 0xC0 then Properties(u, c) else Prepare(u, c, 5)
  {
  }

  /** The first five bytes of compressed data: the last four are the code, highest first. */
  lemma FirstCode(s: Lzma2, b1: byte, b2: byte, b3: byte, b4: byte, b5: byte)
    requires s.place.Prepare? && s.place.left == 5 && s.place.c >= 5
    ensures var r := InitByte(InitByte(InitByte(InitByte(InitByte(s, b1), b2), b3), b4), b5);
      && r.place == LzmaRun(s.place.u, s.place.c - 5) && r.m.d.pos == s.m.d.pos + 5 && r.m.d.range == s.m.d.range
      && r.m.d.code == 0x100_0000 * b2 as int + 0x1_0000 * b3 as int + 0x100 * b4 as int + b5
  {
    var s1 := OneByte(s, b1);
    var s2 := OneByte(s1, b2);
    var s3 := OneByte(s2, b3);
    var s4 := OneByte(s3, b4);
    var s5 := OneByte(s4, b5);
    LastFour(s1.m.d.code, b2, s2.m.d.code, b3, s3.m.d.code, b4, s4.m.d.code, b5, s5.m.d.code);
  }

  lemma OneByte(s: Lzma2, b: byte) returns (r: Lzma2)
    requires s.place.Prepare? && s.place.left > 0 && s.place.c >= 5
    ensures r == InitByte(s, b) && r.m.d.pos == s.m.d.pos + 1 && r.m.d.range == s.m.d.range
    ensures r.m.d.code == (s.m.d.code * 256 + b) % TWO32
    ensures r.place == if s.place.left == 1 then LzmaRun(s.place.u, s.place.c - 5) else Prepare(s.place.u, s.place.c, s.place.left - 1)
  {
    r := InitByte(s, b);
  }

  lemma LastFour(c1: Word, b2: byte, c2: Word, b3: byte, c3: Word, b4: byte, c4: Word, b5: byte, c5: Word)
    requires c2 == (c1 * 256 + b2) % TWO32 && c3 == (c2 * 256 + b3) % TWO32
    requires c4 == (c3 * 256 + b4) % TWO32 && c5 == (c4 * 256 + b5) % TWO32
    ensures c5 == 0x100_0000 * b2 as int + 0x1_0000 * b3 as int + 0x100 * b4 as int + b5
  {
    var v2 := c1 * 256 + b2;
    Pushed(v2, c2, b3);
    var v3 := v2 * 256 + b3;
    Pushed(v3, c3, b4);
    var v4 := v3 * 256 + b4;
    Pushed(v4, c4, b5);
    var v5 := v4 * 256 + b5;
    var x := 0x100_0000 * b2 as int + 0x1_0000 * b3 as int + 0x100 * b4 as int + b5;
    assert v5 == x + c1 * TWO32;
    ModMultiple(x, c1, TWO32);
  }

  // what leaves at the top does not matter
  lemma Pushed(x: nat, c: Word, b: byte)
    requires c == x % TWO32
    ensures (c * 256 + b) % TWO32 == (x * 256 + b) % TWO32
  {
    var q := x / TWO32;
    ModMultiple(c * 256 + b, q * 256, TWO32);
  }

  /** One LZMA symbol, which must not reach beyond the chunk. */
  function SymbolStep(size: nat, stream: seq<byte>, s: Lzma2): Lzma2
    requires Lzma2Ok(size, s) && s.place.LzmaRun?
  {
    var end := s.m.d.pos + s.place.c;
    match Round(Config(s.props, size), s.m, Upto(stream, end))
    case None => s.(place := Failed)
    case Some(m) =>
      if m.d.pos > end then s.(place := Failed)
      else s.(place := LzmaRun(s.place.togo - (|m.hist| - |s.m.hist|), end - m.d.pos), m := m)
  }

  /** The end of an LZMA chunk: everything must come out even. */
  function ChunkEnd(s: Lzma2): Lzma2
    requires s.place.LzmaRun?
  {
    if s.place.togo < 0 || s.place.c > 0 || s.m.d.code != 0 then s.(place := Failed)
    else s.(place := Control, m := RcReset(s.m))
  }

  /** SEQ_COPY, one byte of it. */
  function CopyByte(s: Lzma2, b: byte): Lzma2
    requires s.place.Copy? && s.place.c > 0
  {
    var m := Read1(s.m);
    s.(place := if s.place.c == 1 then Control else Copy(s.place.c - 1), m := m.(hist := m.hist + [b]))
  }

  /** What the next byte of the stream does, outside the compressed data. */
  function ByteStep(s: Lzma2, b: byte): Lzma2 {
    match s.place
    case Control => ControlByte(s, b)
    case Properties(_, _) => PropertyByte(s, b)
    case Prepare(_, c, _) => if c < 5 then s.(place := Failed) else InitByte(s, b)
    case Copy(c) => if c > 0 then CopyByte(s, b) else s
    case LzmaRun(_, _) => s
    case Finished => s
    case Failed => s
    case _ => s.(place := SizeByte(s.place, b), m := Read1(s.m))
  }

  lemma ByteStepOk(size: nat, s: Lzma2, b: byte)
    requires Lzma2Ok(size, s)
    ensures Lzma2Ok(size, ByteStep(s, b))
  {
    assert PropsByteOk(b) ==> PropsOk(PropsOf(b));
  }

  /** One step; the machine stays where it is at the end of the stream, and once it has finished or failed.
      A chunk too short for the five initial bytes fails before they are read. */
  function Step(size: nat, stream: seq<byte>, s: Lzma2): (r: Lzma2)
    requires Lzma2Ok(size, s)
    ensures Lzma2Ok(size, r)
  {
    SealedStep(size, stream, s, SEAL)
  }

  function SealedStep(size: nat, stream: seq<byte>, s: Lzma2, seal: nat): (r: Lzma2)
    requires Lzma2Ok(size, s)
    ensures Lzma2Ok(size, r)
    decreases seal, s
  {
    if seal > 0 then SealedStep(size, stream, s, seal - 1) else
    var p := s.place;
    if p.LzmaRun? then
      if p.togo > 0 then SymbolStep(size, stream, s) else ChunkEnd(s)
    else if p.Prepare? && p.c < 5 then s.(place := Failed)
    else if s.m.d.pos < |stream| then
      ByteStepOk(size, s, stream[s.m.d.pos]);
      ByteStep(s, stream[s.m.d.pos])
    else s
  }

  lemma StepIs(size: nat, stream: seq<byte>, s: Lzma2)
    requires Lzma2Ok(size, s)
    ensures Step(size, stream, s) ==
      if s.place.LzmaRun? then
        if s.place.togo > 0 then SymbolStep(size, stream, s) else ChunkEnd(s)
      else if s.place.Prepare? && s.place.c < 5 then s.(place := Failed)
      else if s.m.d.pos < |stream| then ByteStep(s, stream[s.m.d.pos])
      else s
  {
    assert SealedStep(size, stream, s, 1) == SealedStep(size, stream, s, 0);
    assert SealedStep(size, stream, s, 2) == SealedStep(size, stream, s, 1);
    assert SealedStep(size, stream, s, 3) == SealedStep(size, stream, s, 2);
  }

  lemma OneStep(size: nat, stream: seq<byte>, s: Lzma2)
    requires Lzma2Ok(size, s)
    ensures Iter(size, stream, s, 1) == Step(size, stream, s)
  {
    assert Iter(size, stream, Step(size, stream, s), 0) == Step(size, stream, s);
  }

  function Iter(size: nat, stream: seq<byte>, s: Lzma2, k: nat): (r: Lzma2)
    requires Lzma2Ok(size, s)
    ensures Lzma2Ok(size, r)
    decreases k
  {
    if k == 0 then s else Iter(size, stream, Step(size, stream, s), k - 1)
  }

  lemma {:induction false} IterAdd(size: nat, stream: seq<byte>, s: Lzma2, j: nat, k: nat)
    requires Lzma2Ok(size, s)
    ensures Iter(size, stream, Iter(size, stream, s, j), k) == Iter(size, stream, s, j + k)
    decreases j
  {
    if j > 0 {
      IterAdd(size, stream, Step(size, stream, s), j - 1, k);
    }
  }

  /** Nothing that was produced is taken back, and nothing that was read is unread. */
  lemma {:induction false} IterGrows(size: nat, stream: seq<byte>, s: Lzma2, k: nat)
    requires Lzma2Ok(size, s)
    ensures Produced(s) <= Produced(Iter(size, stream, s, k))
    ensures s.m.d.pos <= Iter(size, stream, s, k).m.d.pos
    decreases k
  {
    if k > 0 {
      StepGrows(size, stream, s);
      IterGrows(size, stream, Step(size, stream, s), k - 1);
    }
  }

  lemma StepGrows(size: nat, stream: seq<byte>, s: Lzma2)
    requires Lzma2Ok(size, s)
    ensures Produced(s) <= Produced(Step(size, stream, s))
    ensures s.m.d.pos <= Step(size, stream, s).m.d.pos
  {
    var r := Step(size, stream, s);
    StepIs(size, stream, s);
    if s.place.Control? {
      assert r.before + r.m.hist == s.before + s.m.hist;
    } else {
      assert r.before == s.before && s.m.hist <= r.m.hist;
    }
  }

  /** Once finished or failed, the machine stays there. */
  lemma {:induction false} IterStopped(size: nat, stream: seq<byte>, s: Lzma2, k: nat)
    requires Lzma2Ok(size, s) && (s.place.Finished? || s.place.Failed?)
    ensures Iter(size, stream, s, k) == s
    decreases k
  {
    if k > 0 {
      StepIs(size, stream, s);
      IterStopped(size, stream, s, k - 1);
    }
  }

  // ---- decoding elsewhere than in the stream itself

  function MovedMachine(m: Machine, delta: int): Machine
    requires m.d.pos + delta >= 0
  {
    m.(d := Moved(m.d, delta))
  }

  /** A round that reads only up to `e` gives the same when the same bytes up to `e` lie elsewhere. */
  lemma RoundMoved(c: Config, m: Machine, inp: seq<byte>, inp': seq<byte>, delta: int, e: int)
    requires MachineOk(c, m) && m.d.pos + delta >= 0 && MachineOk(c, MovedMachine(m, delta))
    requires SameBytes(inp, inp', m.d.pos, e, delta)
    ensures var r, r' := Round(c, m, inp), Round(c, MovedMachine(m, delta), inp');
      && (r.Some? && r.value.d.pos <= e ==> r' == Some(MovedMachine(r.value, delta)))
      && (r.None? && m.d.pos + 20 <= e ==> r'.None?)
  {
    var env := EnvOf(c.props, m.lz, m.hist);
    SymbolIs(c, m, inp);
    SymbolIs(c, MovedMachine(m, delta), inp');
    var t := SymbolTree(env);
    var (o, d) := Run(t, m.d, inp);
    SymbolReadsAtMost20(m.d, env, inp);
    if d.pos <= e {
      RunLocal(t, m.d, inp, inp', delta);
      NormalizeMoved(d, inp, inp', delta, m.d.pos, e);
    }
  }

  lemma NormalizeMoved(d: Dec, inp: seq<byte>, inp': seq<byte>, delta: int, lo: nat, e: int)
    requires lo <= d.pos && lo + delta >= 0 && SameBytes(inp, inp', lo, e, delta)
    ensures Normalize(d, inp).pos <= e ==> Normalize(Moved(d, delta), inp') == Moved(Normalize(d, inp), delta)
  {
  }

  lemma SameBytesBack(inp: seq<byte>, inp': seq<byte>, lo: nat, e: int, delta: int)
    requires lo + delta >= 0 && SameBytes(inp, inp', lo, e, delta)
    ensures SameBytes(inp', inp, lo + delta, e + delta, -delta)
  {
    forall i | lo + delta <= i < e + delta
      ensures At(inp', i) == At(inp, i + -delta)
    {
      assert At(inp, i - delta) == At(inp', i - delta + delta);
    }
  }

  /** The other way round: a round that reads beyond `e` does so in both places. */
  lemma RoundBeyond(c: Config, m: Machine, inp: seq<byte>, inp': seq<byte>, delta: int, e: int)
    requires MachineOk(c, m) && m.d.pos + delta >= 0 && MachineOk(c, MovedMachine(m, delta))
    requires SameBytes(inp, inp', m.d.pos, e, delta)
    requires Round(c, m, inp).Some? ==> Round(c, m, inp).value.d.pos > e
    ensures var r' := Round(c, MovedMachine(m, delta), inp'); r'.Some? ==> r'.value.d.pos > e + delta
  {
    var m' := MovedMachine(m, delta);
    SameBytesBack(inp, inp', m.d.pos, e, delta);
    assert MovedMachine(m', -delta) == m;
    RoundMoved(c, m', inp', inp, -delta, e + delta);
  }

  // ---- which steps the bytes of a beginning of the stream determine

  /** How far the decoder has to read for the next symbol, and for the normalization after it if the symbol
      is good. */
  function ReadTo(c: Config, m: Machine, inp: seq<byte>): nat
    requires MachineOk(c, m)
  {
    var env := EnvOf(c.props, m.lz, m.hist);
    EnvOfOk(c.props, m.lz, m.hist);
    SymbolReadsAtMost20(m.d, env, inp);
    var d := Run(SymbolTree(env), m.d, inp).1;
    if Symbol(c, m, inp).Some? then Normalize(d, inp).pos else d.pos
  }

  lemma RoundReads(c: Config, m: Machine, inp: seq<byte>)
    requires MachineOk(c, m)
    ensures Round(c, m, inp).Some? ==> Round(c, m, inp).value.d.pos == ReadTo(c, m, inp)
    ensures Round(c, m, inp).None? ==> m.d.pos <= ReadTo(c, m, inp) <= m.d.pos + 20
  {
    SymbolIs(c, m, inp);
    SymbolReadsAtMost20(m.d, EnvOf(c.props, m.lz, m.hist), inp);
  }

  /** A round depends on nothing but what it reads. */
  lemma RoundSame(c: Config, m: Machine, inp: seq<byte>, inp': seq<byte>, delta: int, e: int)
    requires MachineOk(c, m) && m.d.pos + delta >= 0 && MachineOk(c, MovedMachine(m, delta))
    requires SameBytes(inp, inp', m.d.pos, e, delta) && ReadTo(c, m, inp) <= e
    ensures ReadTo(c, MovedMachine(m, delta), inp') == ReadTo(c, m, inp) + delta
    ensures Round(c, MovedMachine(m, delta), inp')
      == if Round(c, m, inp).Some? then Some(MovedMachine(Round(c, m, inp).value, delta)) else None
  {
    var env := EnvOf(c.props, m.lz, m.hist);
    var t := SymbolTree(env);
    SymbolIs(c, m, inp);
    SymbolIs(c, MovedMachine(m, delta), inp');
    SymbolReadsAtMost20(m.d, env, inp);
    RunLocal(t, m.d, inp, inp', delta);
    if Symbol(c, m, inp).Some? {
      NormalizeMoved(Run(t, m.d, inp).1, inp, inp', delta, m.d.pos, e);
    }
  }

  function Stopped(st: Lzma2): bool { st.place.Finished? || st.place.Failed? }

  /** The bytes of `s` tell what the next step is. */
  predicate Determined(size: nat, s: seq<byte>, st: Lzma2)
    requires Lzma2Ok(size, st)
  {
    if Stopped(st) then false
    else if st.place.LzmaRun? then
      st.place.togo <= 0 || st.m.d.pos + st.place.c <= |s| || ReadTo(Config(st.props, size), st.m, s) <= |s|
    else (st.place.Prepare? && st.place.c < 5) || (st.m.d.pos < |s| && st.place != Copy(0))
  }

  /** With more bytes, a step that was determined is the same. */
  lemma StepSame(size: nat, s: seq<byte>, t: seq<byte>, st: Lzma2)
    requires Lzma2Ok(size, st) && s <= t && st.m.d.pos <= |s| && Determined(size, s, st)
    ensures Determined(size, t, st) && Step(size, t, st) == Step(size, s, st)
  {
    StepIs(size, s, st);
    StepIs(size, t, st);
    if st.place.LzmaRun? && st.place.togo > 0 {
      var end, c := st.m.d.pos + st.place.c, Config(st.props, size);
      if end <= |s| {
        assert s[..end] == t[..end];
      } else {
        assert MovedMachine(st.m, 0) == st.m;
        RoundSame(c, st.m, s, Upto(t, end), 0, |s|);
        RoundSame(c, st.m, s, t, 0, |s|);
      }
    }
  }

  // ---- what lzma_main does is what the machine does

  /** `inp` holds what the chunk at `s` holds, at a displacement of `delta`, from the position of `m` up to
      `e`: either to the end of the chunk, or far enough for a symbol begun no later than `lim`. */
  ghost predicate Mirrors(stream: seq<byte>, s: Lzma2, m: Machine, inp: seq<byte>, delta: int, e: int, lim: int) {
    && s.place.LzmaRun? && m.d.pos + delta == s.m.d.pos && s.m == MovedMachine(m, delta)
    && var end := s.m.d.pos + s.place.c;
       && m.d.pos <= e && e + delta <= end && (e + delta == end || lim + 20 <= e)
       && SameBytes(inp, Upto(stream, end), m.d.pos, e, delta)
  }

  // The machine, after decoding up to `last` in the other place.
  function Advanced(s: Lzma2, last: Machine, delta: int): Lzma2
    requires s.place.LzmaRun? && 0 <= last.d.pos + delta <= s.m.d.pos + s.place.c
  {
    s.(place := LzmaRun(s.place.togo - (|last.hist| - |s.m.hist|), s.m.d.pos + s.place.c - (last.d.pos + delta)),
       m := MovedMachine(last, delta))
  }

  /** A bad symbol is seen as soon as it has been read. */
  lemma RoundSeen(stream: seq<byte>, avail: nat, c: Config, s: Lzma2, m: Machine, inp: seq<byte>, delta: int, e: int)
    requires s.place.LzmaRun? && m.d.pos + delta == s.m.d.pos && s.m == MovedMachine(m, delta)
    requires MachineOk(c, m) && MachineOk(c, s.m) && e + delta <= avail <= |stream| && e + delta <= s.m.d.pos + s.place.c
    requires SameBytes(inp, Upto(stream, s.m.d.pos + s.place.c), m.d.pos, e, delta)
    ensures Round(c, m, inp).None? && m.d.pos + 20 <= e ==> ReadTo(c, s.m, stream[..avail]) <= avail
  {
    if Round(c, m, inp).None? && m.d.pos + 20 <= e {
      RoundReads(c, m, inp);
      forall i | m.d.pos <= i < e
        ensures At(inp, i) == At(stream[..avail], i + delta)
      {
        assert At(inp, i) == At(Upto(stream, s.m.d.pos + s.place.c), i + delta);
      }
      RoundSame(c, m, inp, stream[..avail], delta, e);
    }
  }

  lemma OneRound(size: nat, stream: seq<byte>, avail: nat, s: Lzma2, m: Machine, inp: seq<byte>, delta: int, e: int, lim: int)
    requires Lzma2Ok(size, s) && Mirrors(stream, s, m, inp, delta, e, lim) && s.place.togo > 0
    requires MachineOk(Config(s.props, size), m) && e + delta <= avail <= |stream|
    ensures var r := Round(Config(s.props, size), m, inp);
      && (r.Some? && r.value.d.pos <= e ==>
           Step(size, stream, s) == Advanced(s, r.value, delta)
           && Mirrors(stream, Advanced(s, r.value, delta), r.value, inp, delta, e, lim))
      && ((r.None? && (m.d.pos <= lim || e + delta == s.m.d.pos + s.place.c))
          || (r.Some? && r.value.d.pos > e && e + delta == s.m.d.pos + s.place.c) ==>
           FailsBy(size, stream, avail, s, 1))
  {
    var c := Config(s.props, size);
    var x := Upto(stream, s.m.d.pos + s.place.c);
    var r := Round(c, m, inp);
    StepIs(size, stream, s);
    RoundMoved(c, m, inp, x, delta, e);
    if r.None? || r.value.d.pos > e {
      RoundBeyond(c, m, inp, x, delta, e);
      RoundSeen(stream, avail, c, s, m, inp, delta, e);
      OneStep(size, stream, s);
    }
  }

  /** However many rounds lzma_main went on for, they are as many steps of the machine. It fails exactly
      where the machine does: at an invalid distance or at a symbol that reaches beyond the chunk. */
  lemma {:induction false} Rounds(size: nat, stream: seq<byte>, avail: nat, s: Lzma2, m: Machine, inp: seq<byte>, delta: int, e: int, lim: int,
      n: nat, bound: int, last: Machine, ok: bool) returns (k: nat)
    requires Lzma2Ok(size, s) && Mirrors(stream, s, m, inp, delta, e, lim)
    requires var c := Config(s.props, size);
      && MachineOk(c, m) && MachineOk(c, last) && Reaches(c, m, inp, n, bound, last)
      && (!ok ==> |last.hist| < bound && last.d.pos <= lim && Symbol(c, last, inp).None?)
    requires bound <= |m.hist| + s.place.togo && e + delta <= avail <= |stream|
    requires ok && last.d.pos > e ==> e + delta == s.m.d.pos + s.place.c
    ensures if ok && last.d.pos <= e then m.d.pos <= last.d.pos && Iter(size, stream, s, k) == Advanced(s, last, delta)
      else FailsBy(size, stream, avail, s, k)
    decreases n
  {
    var c := Config(s.props, size);
    if n == 0 {
      k := if ok then 0 else 1;
      if !ok {
        OneRound(size, stream, avail, s, m, inp, delta, e, lim);
        OneStep(size, stream, s);
      }
    } else {
      OneRound(size, stream, avail, s, m, inp, delta, e, lim);
      var m1 := Round(c, m, inp).value;
      ReachesOk(c, m1, inp, n - 1, bound, last);
      if m1.d.pos <= e {
        var k' := Rounds(size, stream, avail, Advanced(s, m1, delta), m1, inp, delta, e, lim, n - 1, bound, last, ok);
        k := k' + 1;
      } else {
        k := 1;
        OneStep(size, stream, s);
      }
    }
  }

  lemma WentOn(size: nat, stream: seq<byte>, avail: nat, s: Lzma2, m: Machine, inp: seq<byte>, delta: int, e: int, lim: int,
      n: nat, bound: int, last: Machine, ok: bool) returns (k: nat)
    requires Lzma2Ok(size, s) && Mirrors(stream, s, m, inp, delta, e, lim)
    requires Went(Config(s.props, size), m, inp, n, bound, lim, last, ok, SEAL)
    requires bound <= |m.hist| + s.place.togo && e + delta <= avail <= |stream|
    requires ok ==> last.d.pos <= lim + 20
    ensures if ok && last.d.pos <= e then m.d.pos <= last.d.pos && Path(size, stream, s, k, Advanced(s, last, delta), SEAL)
      else Fails(size, stream, avail, s, k, SEAL)
  {
    WentIs(Config(s.props, size), m, inp, n, bound, lim, last, ok);
    k := Rounds(size, stream, avail, s, m, inp, delta, e, lim, n, bound, last, ok);
    if ok && last.d.pos <= e {
      PathIs(size, stream, s, k, Advanced(s, last, delta));
    } else {
      FailsIs(size, stream, avail, s, k);
    }
  }

  /** Up to the end of the chunk it makes no difference what comes behind it. */
  lemma SameUpto(inp: seq<byte>, stream: seq<byte>, lo: nat, e: int, delta: int, end: nat)
    requires lo + delta >= 0 && SameBytes(inp, stream, lo, e, delta) && e + delta <= end
    ensures SameBytes(inp, Upto(stream, end), lo, e, delta)
  {
    forall i | lo <= i < e
      ensures At(inp, i) == At(Upto(stream, end), i + delta)
    {
      assert At(inp, i) == At(stream, i + delta);
    }
  }

  // ---- runs of the machine, as relations that are not unfolded

  /** `k` steps lead from `s` to `r`. */
  ghost predicate Path(size: nat, stream: seq<byte>, s: Lzma2, k: nat, r: Lzma2, seal: nat)
    decreases seal, stream
  {
    if seal > 0 then Path(size, stream, s, k, r, seal - 1)
    else Lzma2Ok(size, s) && Iter(size, stream, s, k) == r
  }

  /** The machine fails with the `k`-th step after `s`, and the first `avail` bytes of the stream are enough to
      see it. */
  ghost predicate FailsBy(size: nat, stream: seq<byte>, avail: nat, s: Lzma2, k: nat)
    requires Lzma2Ok(size, s)
  {
    && k > 0 && avail <= |stream|
    && FailsAt(size, stream[..avail], Iter(size, stream, s, k - 1), Iter(size, stream, s, k))
  }

  ghost predicate FailsAt(size: nat, known: seq<byte>, p: Lzma2, q: Lzma2)
    requires Lzma2Ok(size, p)
  {
    !Stopped(p) && p.m.d.pos <= |known| && Determined(size, known, p) && q.place.Failed?
  }

  ghost predicate Fails(size: nat, stream: seq<byte>, avail: nat, s: Lzma2, k: nat, seal: nat)
    decreases seal, stream
  {
    if seal > 0 then Fails(size, stream, avail, s, k, seal - 1)
    else Lzma2Ok(size, s) && FailsBy(size, stream, avail, s, k)
  }

  lemma PathIs(size: nat, stream: seq<byte>, s: Lzma2, k: nat, r: Lzma2)
    ensures Path(size, stream, s, k, r, SEAL) <==> Lzma2Ok(size, s) && Iter(size, stream, s, k) == r
  {
    assert Path(size, stream, s, k, r, 1) <==> Path(size, stream, s, k, r, 0);
    assert Path(size, stream, s, k, r, 2) <==> Path(size, stream, s, k, r, 1);
    assert Path(size, stream, s, k, r, 3) <==> Path(size, stream, s, k, r, 2);
  }

  lemma FailsIs(size: nat, stream: seq<byte>, avail: nat, s: Lzma2, k: nat)
    ensures Fails(size, stream, avail, s, k, SEAL) <==> Lzma2Ok(size, s) && FailsBy(size, stream, avail, s, k)
  {
    assert Fails(size, stream, avail, s, k, 1) <==> Fails(size, stream, avail, s, k, 0);
    assert Fails(size, stream, avail, s, k, 2) <==> Fails(size, stream, avail, s, k, 1);
    assert Fails(size, stream, avail, s, k, 3) <==> Fails(size, stream, avail, s, k, 2);
  }

  lemma FailsByAfter(size: nat, stream: seq<byte>, avail: nat, s: Lzma2, j: nat, k: nat, r: Lzma2, p: Lzma2, q: Lzma2)
    requires Lzma2Ok(size, s) && r == Iter(size, stream, s, j) && k > 0 && avail <= |stream|
    requires p == Iter(size, stream, r, k - 1) && q == Iter(size, stream, r, k) && FailsAt(size, stream[..avail], p, q)
    ensures FailsBy(size, stream, avail, s, j + k)
  {
    IterAdd(size, stream, s, j, k);
    IterAdd(size, stream, s, j, k - 1);
    FailsByIs(size, stream, avail, s, j + k, p, q);
  }

  lemma FailsByIs(size: nat, stream: seq<byte>, avail: nat, s: Lzma2, n: nat, p: Lzma2, q: Lzma2)
    requires Lzma2Ok(size, s) && n > 0 && avail <= |stream| && Lzma2Ok(size, p) && FailsAt(size, stream[..avail], p, q)
    requires p == Iter(size, stream, s, n - 1) && q == Iter(size, stream, s, n)
    ensures FailsBy(size, stream, avail, s, n)
  {
  }

  lemma PathThen(size: nat, stream: seq<byte>, s: Lzma2, j: nat, r: Lzma2, k: nat, q: Lzma2)
    requires Path(size, stream, s, j, r, SEAL)
    ensures Path(size, stream, r, k, q, SEAL) ==> Path(size, stream, s, j + k, q, SEAL)
  {
    PathIs(size, stream, s, j, r);
    PathIs(size, stream, r, k, q);
    PathIs(size, stream, s, j + k, q);
    IterAdd(size, stream, s, j, k);
  }

  lemma FailsThen(size: nat, stream: seq<byte>, avail: nat, s: Lzma2, j: nat, r: Lzma2, k: nat)
    requires Path(size, stream, s, j, r, SEAL) && Fails(size, stream, avail, r, k, SEAL)
    ensures Fails(size, stream, avail, s, j + k, SEAL)
  {
    PathIs(size, stream, s, j, r);
    FailsIs(size, stream, avail, r, k);
    FailsIs(size, stream, avail, s, j + k);
    FailsByAfter(size, stream, avail, s, j, k, r, Iter(size, stream, r, k - 1), Iter(size, stream, r, k));
  }

  lemma PathStep(size: nat, stream: seq<byte>, s: Lzma2)
    requires Lzma2Ok(size, s)
    ensures Path(size, stream, s, 0, s, SEAL) && Path(size, stream, s, 1, Step(size, stream, s), SEAL)
  {
    PathIs(size, stream, s, 0, s);
    PathIs(size, stream, s, 1, Step(size, stream, s));
    OneStep(size, stream, s);
  }

  /** The machine fails, after producing at least `out`. */
  ghost predicate FailsWith(size: nat, stream: seq<byte>, avail: nat, s: Lzma2, k: nat, out: seq<byte>, seal: nat)
    decreases seal, stream
  {
    if seal > 0 then FailsWith(size, stream, avail, s, k, out, seal - 1)
    else Lzma2Ok(size, s) && FailsBy(size, stream, avail, s, k) && out <= Produced(Iter(size, stream, s, k))
  }

  lemma FailsWithIs(size: nat, stream: seq<byte>, avail: nat, s: Lzma2, k: nat, out: seq<byte>)
    ensures FailsWith(size, stream, avail, s, k, out, SEAL) <==>
      Lzma2Ok(size, s) && FailsBy(size, stream, avail, s, k) && out <= Produced(Iter(size, stream, s, k))
  {
    assert FailsWith(size, stream, avail, s, k, out, 1) <==> FailsWith(size, stream, avail, s, k, out, 0);
    assert FailsWith(size, stream, avail, s, k, out, 2) <==> FailsWith(size, stream, avail, s, k, out, 1);
    assert FailsWith(size, stream, avail, s, k, out, 3) <==> FailsWith(size, stream, avail, s, k, out, 2);
  }

  lemma FailsLess(size: nat, stream: seq<byte>, avail: nat, s: Lzma2, k: nat, out: seq<byte>, less: seq<byte>)
    requires less <= out
    ensures FailsWith(size, stream, avail, s, k, out, SEAL) ==> FailsWith(size, stream, avail, s, k, less, SEAL)
  {
    FailsWithIs(size, stream, avail, s, k, out);
    FailsWithIs(size, stream, avail, s, k, less);
  }

  /** What was produced up to a failure had been produced on the way there. */
  lemma FailsAfter(size: nat, stream: seq<byte>, avail: nat, s0: Lzma2, j: nat, s: Lzma2, k: nat, out: seq<byte>)
    requires Path(size, stream, s0, j, s, SEAL) && Fails(size, stream, avail, s, k, SEAL) && out <= Produced(s)
    ensures FailsWith(size, stream, avail, s0, j + k, out, SEAL)
  {
    PathIs(size, stream, s0, j, s);
    FailsIs(size, stream, avail, s, k);
    FailsByAfter(size, stream, avail, s0, j, k, s, Iter(size, stream, s, k - 1), Iter(size, stream, s, k));
    IterAdd(size, stream, s0, j, k);
    IterGrows(size, stream, s, k);
    FailsWithIs(size, stream, avail, s0, j + k, out);
  }

  /** One more byte of the stream, outside the compressed data. */
  lemma PathByte(size: nat, stream: seq<byte>, avail: nat, s0: Lzma2, k: nat, s: Lzma2)
    requires Path(size, stream, s0, k, s, SEAL) && s.m.d.pos < avail <= |stream|
    requires !s.place.LzmaRun? && !(s.place.Prepare? && s.place.c < 5)
    ensures var r := ByteStep(s, stream[s.m.d.pos]);
      && Path(size, stream, s0, k + 1, r, SEAL) && Produced(s) <= Produced(r)
      && (r.place.Failed? && !Stopped(s) ==> FailsWith(size, stream, avail, s0, k + 1, Produced(s), SEAL))
  {
    PathNext(size, stream, avail, s0, k, s);
    StepIs(size, stream, s);
  }

  lemma PathNext(size: nat, stream: seq<byte>, avail: nat, s0: Lzma2, k: nat, s: Lzma2)
    requires Path(size, stream, s0, k, s, SEAL) && s.m.d.pos <= avail <= |stream|
    ensures Lzma2Ok(size, s)
    ensures Path(size, stream, s0, k + 1, Step(size, stream, s), SEAL) && Produced(s) <= Produced(Step(size, stream, s))
    ensures Step(size, stream, s).place.Failed? && Determined(size, stream[..avail], s) ==>
      FailsWith(size, stream, avail, s0, k + 1, Produced(s), SEAL)
  {
    PathIs(size, stream, s0, k, s);
    PathStep(size, stream, s);
    PathThen(size, stream, s0, k, s, 1, Step(size, stream, s));
    StepGrows(size, stream, s);
    if Step(size, stream, s).place.Failed? && Determined(size, stream[..avail], s) {
      OneStep(size, stream, s);
      FailsIs(size, stream, avail, s, 1);
      FailsAfter(size, stream, avail, s0, k, s, 1, Produced(s));
    }
  }

  /** The end of a chunk of compressed data, or a chunk too short to have any. */
  lemma PathUnprompted(size: nat, stream: seq<byte>, avail: nat, s0: Lzma2, k: nat, s: Lzma2)
    requires Path(size, stream, s0, k, s, SEAL) && s.m.d.pos <= avail <= |stream|
    ensures s.place.LzmaRun? && s.place.togo <= 0 ==>
      && Path(size, stream, s0, k + 1, ChunkEnd(s), SEAL)
      && (ChunkEnd(s).place.Failed? ==> FailsWith(size, stream, avail, s0, k + 1, Produced(s), SEAL))
    ensures s.place.Prepare? && s.place.c < 5 ==> FailsWith(size, stream, avail, s0, k + 1, Produced(s), SEAL)
  {
    PathNext(size, stream, avail, s0, k, s);
    StepIs(size, stream, s);
  }

  // `n` bytes of an uncompressed chunk
  function CopyBytes(s: Lzma2, stream: seq<byte>, n: nat): Lzma2
    requires s.place.Copy? && n <= s.place.c && s.m.d.pos + n <= |stream|
  {
    s.(place := if n == s.place.c then Control else Copy(s.place.c - n),
       m := s.m.(d := s.m.d.(pos := s.m.d.pos + n), hist := s.m.hist + stream[s.m.d.pos..s.m.d.pos + n]))
  }

  lemma {:induction false} PathCopy(size: nat, stream: seq<byte>, s0: Lzma2, k: nat, s: Lzma2, n: nat)
    requires Path(size, stream, s0, k, s, SEAL) && s.place.Copy? && 0 < s.place.c && n <= s.place.c && s.m.d.pos + n <= |stream|
    ensures Path(size, stream, s0, k + n, CopyBytes(s, stream, n), SEAL)
    decreases n
  {
    if n == 0 {
      assert CopyBytes(s, stream, 0) == s;
    } else {
      PathCopy(size, stream, s0, k, s, n - 1);
      var r := CopyBytes(s, stream, n - 1);
      PathByte(size, stream, |stream|, s0, k + n - 1, r);
      assert stream[s.m.d.pos..s.m.d.pos + n] == stream[s.m.d.pos..s.m.d.pos + (n - 1)] + [stream[r.m.d.pos]];
      assert ByteStep(r, stream[r.m.d.pos]).m.hist == CopyBytes(s, stream, n).m.hist;
    }
  }

  /** The stream ended properly `k` steps after `s`, with `out` produced and `pos` bytes read. */
  ghost predicate Ends(size: nat, stream: seq<byte>, s: Lzma2, k: nat, out: seq<byte>, pos: nat) {
    && Lzma2Ok(size, s)
    && var r := Iter(size, stream, s, k); r.place.Finished? && Produced(r) == out && r.m.d.pos == pos
  }

  lemma PathControl(size: nat, stream: seq<byte>, avail: nat, s0: Lzma2, k: nat, s: Lzma2, b: byte)
    requires Path(size, stream, s0, k, s, SEAL) && s.place.Control?
    requires s.m.d.pos < avail <= |stream| && stream[s.m.d.pos] == b
    ensures Path(size, stream, s0, k + 1, ControlByte(s, b), SEAL)
    ensures ControlByte(s, b).place.Failed? ==> FailsWith(size, stream, avail, s0, k + 1, Produced(s), SEAL)
    ensures b == 0 ==> Ends(size, stream, s0, k + 1, Produced(s), s.m.d.pos + 1)
  {
    PathByte(size, stream, avail, s0, k, s);
    PathIs(size, stream, s0, k + 1, ByteStep(s, b));
  }

  /** A machine that still has to read behind the first `taken` bytes of the stream to finish. */
  predicate Starved(s: Lzma2, taken: nat) {
    && !Stopped(s)
    && if s.place.LzmaRun? then s.m.d.pos + s.place.c >= taken else s.m.d.pos == taken
  }

  lemma {:induction false} StarvedNeedsMore(size: nat, stream: seq<byte>, s: Lzma2, taken: nat, k: nat)
    requires Lzma2Ok(size, s) && Starved(s, taken)
    ensures var r := Iter(size, stream, s, k); r.place.Finished? ==> r.m.d.pos > taken
    decreases k
  {
    if k > 0 {
      var r := Step(size, stream, s);
      StepIs(size, stream, s);
      StepGrows(size, stream, s);
      IterGrows(size, stream, r, k - 1);
      if r.place.Failed? {
        IterStopped(size, stream, r, k - 1);
      } else if r.m.d.pos <= taken {
        StarvedNeedsMore(size, stream, r, taken, k - 1);
      }
    }
  }

  /** As long as the machine is starved, the stream does not end within what was taken of it. */
  lemma StarvedNotEnded(size: nat, stream: seq<byte>, n: nat, s: Lzma2, taken: nat, k: nat, out: seq<byte>, pos: nat)
    requires Path(size, stream, Start(), n, s, SEAL) && Starved(s, taken) && Ends(size, stream, Start(), k, out, pos)
    ensures pos > taken
  {
    PathIs(size, stream, Start(), n, s);
    if n <= k {
      IterAdd(size, stream, Start(), n, k - n);
      StarvedNeedsMore(size, stream, s, taken, k - n);
    } else {
      IterAdd(size, stream, Start(), k, n - k);
      IterStopped(size, stream, Iter(size, stream, Start(), k), n - k);
    }
  }

  // ---- what the caller can rely on

  /** A stream has one meaning: it cannot end in two ways, or both end and fail, and whatever was produced
      on the way is a beginning of what there is at the end. */
  lemma OneMeaning(size: nat, stream: seq<byte>, s: Lzma2, j: nat, out: seq<byte>, pos: nat)
    requires Ends(size, stream, s, j, out, pos)
    ensures forall k: nat, r :: Path(size, stream, s, k, r, SEAL) ==> Produced(r) <= out && r.m.d.pos <= pos
    ensures forall k: nat, out', pos' :: Ends(size, stream, s, k, out', pos') ==> out' == out && pos' == pos
    ensures forall avail: nat, k: nat, e :: !FailsWith(size, stream, avail, s, k, e, SEAL)
  {
    forall k: nat, r | Path(size, stream, s, k, r, SEAL)
      ensures Produced(r) <= out && r.m.d.pos <= pos
    {
      PathIs(size, stream, s, k, r);
      Later(size, stream, s, k, j);
    }
    forall k: nat, out', pos' | Ends(size, stream, s, k, out', pos')
      ensures out' == out && pos' == pos
    {
      Later(size, stream, s, k, j);
      Later(size, stream, s, j, k);
    }
    forall avail: nat, k: nat, e
      ensures !FailsWith(size, stream, avail, s, k, e, SEAL)
    {
      FailsWithIs(size, stream, avail, s, k, e);
      if Iter(size, stream, s, k).place.Failed? {
        Later(size, stream, s, k, j);
        Later(size, stream, s, j, k);
      }
    }
  }

  /** Of two points on the way, one comes later; a point where the machine has stopped is never left. */
  lemma Later(size: nat, stream: seq<byte>, s: Lzma2, j: nat, k: nat)
    requires Lzma2Ok(size, s)
    ensures var p, q := Iter(size, stream, s, j), Iter(size, stream, s, k);
      q.place.Finished? || q.place.Failed? ==>
        Produced(p) <= Produced(q) && p.m.d.pos <= q.m.d.pos && (p.place.Finished? || p.place.Failed? ==> p == q)
  {
    var p, q := Iter(size, stream, s, j), Iter(size, stream, s, k);
    if j <= k {
      IterAdd(size, stream, s, j, k - j);
      IterGrows(size, stream, p, k - j);
      if p.place.Finished? || p.place.Failed? {
        IterStopped(size, stream, p, k - j);
      }
    } else if q.place.Finished? || q.place.Failed? {
      IterAdd(size, stream, s, k, j - k);
      IterStopped(size, stream, q, j - k);
    }
  }

  lemma PathsComparable(size: nat, stream: seq<byte>, s: Lzma2, j: nat, p: Lzma2, k: nat, q: Lzma2)
    requires Path(size, stream, s, j, p, SEAL) && Path(size, stream, s, k, q, SEAL)
    ensures if j <= k then Produced(p) <= Produced(q) else Produced(q) <= Produced(p)
  {
    PathIs(size, stream, s, j, p);
    PathIs(size, stream, s, k, q);
    if j <= k {
      IterAdd(size, stream, s, j, k - j);
      IterGrows(size, stream, p, k - j);
    } else {
      IterAdd(size, stream, s, k, j - k);
      IterGrows(size, stream, q, j - k);
    }
  }
}
