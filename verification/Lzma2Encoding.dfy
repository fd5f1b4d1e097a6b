/**
 Whole LZMA2 streams: every sequence of chunks that the format allows, stored or compressed, with or without
 resets, has an encoding that the machine of Lzma2Model decodes to the data of the chunks, one after the
 other, using up the stream exactly. Chunks may copy from earlier ones and go on with their state.
 */
module Lzma2Encoding {
  import opened Arithmetic
  import opened Common
  import opened RangeCoder
  import opened Words
  import opened LzmaLayout
  import opened LzmaSymbols
  import opened LzmaRun
  import opened LzmaModel
  import opened LzmaRoundTrip
  import opened LzmaEncoding
  import opened Lzma2Model

  /** What a compressed chunk resets first: nothing, the LZMA state, the state and the properties, or the
      dictionary too. */
  datatype Reset = GoOn | NewState | NewProps(props: byte) | NewDict(props: byte)

  /** A chunk: bytes as they are, with or without a dictionary reset, or LZMA symbols. */
  datatype Chunk = Stored(first: bool, data: seq<byte>) | Compressed(reset: Reset, symbols: seq<Outcome>)

  /** What encoder and decoder have in common between two chunks. */
  datatype Coder = Coder(need: Need, props: Props, probs: seq<Prob>, lz: Lz, hist: seq<byte>)

  function Begin(): Coder { Coder(DictReset, NoProps(), [], LzReset(), []) }

  ghost predicate CoderOk(size: nat, k: Coder) {
    k.need.Nothing? ==>
      && PropsOk(k.props) && |k.probs| == PROBS_TOTAL
      && (!StateIsLiteral(k.lz.state) ==> DistOk(k.hist, k.lz.rep0, size))
  }

  /** The resets that the chunks before make necessary are there. */
  predicate Allowed(k: Coder, c: Chunk) {
    match c
    case Stored(first, _) => first || !k.need.DictReset?
    case Compressed(GoOn, _) => k.need.Nothing?
    case Compressed(NewState, _) => k.need.Nothing?
    case Compressed(NewProps(b), _) => !k.need.DictReset? && PropsByteOk(b)
    case Compressed(NewDict(b), _) => PropsByteOk(b)
  }

  // what the chunk starts from
  function Prepared(k: Coder, c: Chunk): Coder {
    match c
    case Stored(first, _) => if first then Coder(NewProperties, NoProps(), [], LzReset(), []) else k
    case Compressed(GoOn, _) => k
    case Compressed(NewState, _) => k.(probs := FreshProbs(), lz := LzReset())
    case Compressed(NewProps(b), _) => Coder(Nothing, PropsOf(b), FreshProbs(), LzReset(), k.hist)
    case Compressed(NewDict(b), _) => Coder(Nothing, PropsOf(b), FreshProbs(), LzReset(), [])
  }

  lemma PreparedOk(size: nat, k: Coder, c: Chunk)
    requires CoderOk(size, k) && Allowed(k, c)
    ensures CoderOk(size, Prepared(k, c)) && (c.Compressed? ==> Prepared(k, c).need.Nothing?)
  {
  }

  ghost predicate ChunkOk(size: nat, k: Coder, c: Chunk) {
    && CoderOk(size, k) && Allowed(k, c)
    && match c
       case Stored(_, data) => 1 <= |data| <= 0x1_0000
       case Compressed(_, os) =>
         PreparedOk(size, k, c);
         var p := Prepared(k, c);
         && ValidSymbols(size, p.lz, p.hist, os)
         && 1 <= |Data(size, p, c)| <= 0x20_0000 && |Packed(size, p, c)| <= 0x1_0000
  }

  // `p` is what the chunk starts from.
  ghost predicate Fits(size: nat, p: Coder, c: Chunk) {
    c.Compressed? ==> CoderOk(size, p) && p.need.Nothing? && ValidSymbols(size, p.lz, p.hist, c.symbols)
  }

  /** The bytes that a chunk stands for. */
  function Data(size: nat, p: Coder, c: Chunk): seq<byte>
    requires Fits(size, p, c)
  {
    match c
    case Stored(_, data) => data
    case Compressed(_, os) =>
      MeaningGrows(size, p.lz, p.hist, os);
      Meaning(size, p.lz, p.hist, os).1[|p.hist|..]
  }

  lemma {:induction false} MeaningGrows(size: nat, lz: Lz, hist: seq<byte>, os: seq<Outcome>)
    requires ValidSymbols(size, lz, hist, os)
    ensures hist <= Meaning(size, lz, hist, os).1
    decreases os
  {
    if os != [] {
      var lz' := Update(lz, os[0]);
      MeaningGrows(size, lz', Extend(os[0], lz'.rep0, hist, size).value, os[1..]);
    }
  }

  // the range coder's output for a compressed chunk
  function Packed(size: nat, p: Coder, c: Chunk): (s: seq<byte>)
    requires Fits(size, p, c)
    ensures c.Compressed? ==> |s| >= 5
  {
    match c
    case Stored(_, data) => data
    case Compressed(_, os) => EncodedChunk(Config(p.props, size), p.probs, p.lz, p.hist, os)
  }

  /** Encoder and decoder after the chunk. */
  function After(size: nat, p: Coder, c: Chunk): Coder
    requires Fits(size, p, c)
  {
    match c
    case Stored(_, data) => p.(hist := p.hist + data)
    case Compressed(_, os) =>
      var (lz, hist) := Meaning(size, p.lz, p.hist, os);
      Coder(Nothing, p.props, EncodedTo(Config(p.props, size), p.probs, p.lz, p.hist, os).probs, lz, hist)
  }

  function Control(c: Chunk): nat {
    match c
    case Stored(first, _) => if first then 1 else 2
    case Compressed(GoOn, _) => 0x80
    case Compressed(NewState, _) => 0xA0
    case Compressed(NewProps(_), _) => 0xC0
    case Compressed(NewDict(_), _) => 0xE0
  }

  function PropsByte(c: Chunk): seq<byte> {
    match c
    case Compressed(NewProps(b), _) => [b]
    case Compressed(NewDict(b), _) => [b]
    case _ => []
  }

  // the sizes are stored less one
  function Header(c: Chunk, u: nat, n: nat): (h: seq<byte>)
    requires u < 0x20_0000 && n < 0x1_0000
  {
    if c.Stored? then [Control(c), n / 256, n % 256]
    else [Control(c) + u / 65536, u / 256 % 256, u % 256, n / 256, n % 256] + PropsByte(c)
  }

  function Encoded(size: nat, k: Coder, c: Chunk): seq<byte>
    requires ChunkOk(size, k, c)
  {
    PreparedOk(size, k, c);
    var p := Prepared(k, c);
    Header(c, |Data(size, p, c)| - 1, |Packed(size, p, c)| - 1) + Packed(size, p, c)
  }

  ghost predicate AllOk(size: nat, k: Coder, cs: seq<Chunk>)
    decreases cs
  {
    cs == [] ||
    (&& ChunkOk(size, k, cs[0]) && Fits(size, Prepared(k, cs[0]), cs[0])
     && AllOk(size, After(size, Prepared(k, cs[0]), cs[0]), cs[1..]))
  }

  function EncodedAll(size: nat, k: Coder, cs: seq<Chunk>): seq<byte>
    requires AllOk(size, k, cs)
    decreases cs
  {
    if cs == [] then [0]
    else Encoded(size, k, cs[0]) + EncodedAll(size, After(size, Prepared(k, cs[0]), cs[0]), cs[1..])
  }

  function DataAll(size: nat, k: Coder, cs: seq<Chunk>): seq<byte>
    requires AllOk(size, k, cs)
    decreases cs
  {
    if cs == [] then []
    else Data(size, Prepared(k, cs[0]), cs[0]) + DataAll(size, After(size, Prepared(k, cs[0]), cs[0]), cs[1..])
  }

  // The decoder knows what the encoder knows, and its range coder is at rest.
  ghost predicate Agrees(s: Lzma2, k: Coder) {
    && k == Coder(s.need, s.props, s.m.d.probs, s.m.lz, s.m.hist)
    && (k.need.Nothing? ==> s.m.d.range == TWO32 - 1 && s.m.d.code == 0)
  }

  // `s` is `j` steps from the start, between chunks.
  ghost predicate AtChunk(size: nat, stream: seq<byte>, j: nat, s: Lzma2, k: Coder) {
    Path(size, stream, Start(), j, s, SEAL) && s.place.Control? && Agrees(s, k)
  }

  // `part` is what the stream goes on with from `pos`.
  ghost predicate Next(stream: seq<byte>, pos: nat, part: seq<byte>) {
    pos + |part| <= |stream| && stream[pos..pos + |part|] == part
  }

  lemma NextAt(stream: seq<byte>, pos: nat, part: seq<byte>, i: nat)
    requires Next(stream, pos, part) && i < |part|
    ensures pos + i < |stream| && stream[pos + i] == part[i]
  {
    assert stream[pos..pos + |part|][i] == part[i];
  }

  lemma Byte(size: nat, stream: seq<byte>, k: nat, s: Lzma2, b: byte)
    requires Path(size, stream, Start(), k, s, SEAL) && s.m.d.pos < |stream| && stream[s.m.d.pos] == b
    requires !s.place.LzmaRun? && !(s.place.Prepare? && s.place.c < 5)
    ensures Path(size, stream, Start(), k + 1, ByteStep(s, b), SEAL)
  {
    PathByte(size, stream, |stream|, Start(), k, s);
  }

  /** A stored chunk. */
  lemma StoredDecodes(size: nat, stream: seq<byte>, j: nat, s: Lzma2, k: Coder, c: Chunk) returns (i: nat, r: Lzma2)
    requires AtChunk(size, stream, j, s, k) && ChunkOk(size, k, c) && c.Stored? && Next(stream, s.m.d.pos, Encoded(size, k, c))
    ensures AtChunk(size, stream, i, r, After(size, Prepared(k, c), c)) && Produced(r) == Produced(s) + c.data
    ensures r.m.d.pos == s.m.d.pos + |Encoded(size, k, c)|
  {
    var n := |c.data| - 1;
    NextParts(stream, s.m.d.pos, Header(c, n, n), c.data);
    var s3 := StoredHeader(size, stream, j, s, k, c);
    i, r := StoredBody(size, stream, j + 3, s3, c.data);
  }

  lemma StoredHeader(size: nat, stream: seq<byte>, j: nat, s: Lzma2, k: Coder, c: Chunk) returns (r: Lzma2)
    requires AtChunk(size, stream, j, s, k) && Allowed(k, c) && c.Stored? && 1 <= |c.data| <= 0x1_0000
    requires var n := |c.data| - 1; Next(stream, s.m.d.pos, Header(c, n, n))
    ensures Path(size, stream, Start(), j + 3, r, SEAL) && r.place == Copy(|c.data|)
    ensures Agrees(r, Prepared(k, c)) && r.m.d.pos == s.m.d.pos + 3 && Produced(r) == Produced(s)
  {
    var n, p := |c.data| - 1, s.m.d.pos;
    var h := Header(c, n, n);
    NextAt(stream, p, h, 0);
    NextAt(stream, p, h, 1);
    NextAt(stream, p, h, 2);
    TakenApart(n, 1);
    Byte(size, stream, j, s, h[0]);
    var s1 := ByteStep(s, h[0]);
    assert s.before + s.m.hist + [] == s.before + s.m.hist;
    Byte(size, stream, j + 1, s1, h[1]);
    var s2 := ByteStep(s1, h[1]);
    Byte(size, stream, j + 2, s2, h[2]);
    r := ByteStep(s2, h[2]);
  }

  lemma StoredBody(size: nat, stream: seq<byte>, j: nat, s: Lzma2, data: seq<byte>) returns (i: nat, r: Lzma2)
    requires Path(size, stream, Start(), j, s, SEAL) && s.place == Copy(|data|) && data != [] && Next(stream, s.m.d.pos, data)
    ensures Path(size, stream, Start(), i, r, SEAL)
    ensures var d := s.m.d;
      r == s.(place := Place.Control, m := s.m.(hist := s.m.hist + data, d := d.(pos := d.pos + |data|)))
    ensures Produced(r) == Produced(s) + data
  {
    PathCopy(size, stream, Start(), j, s, |data|);
    i, r := j + |data|, CopyBytes(s, stream, |data|);
    Associates(s.before, s.m.hist, data);
  }

  // what the control byte of a compressed chunk does to the machine
  function Controlled(s: Lzma2, c: Chunk, u: nat): Lzma2
    requires c.Compressed? && u < 0x20_0000
  {
    ByteStep(s, Control(c) + u / 65536)
  }

  lemma ControlledIs(s: Lzma2, k: Coder, c: Chunk, u: nat)
    requires c.Compressed? && u < 0x20_0000 && s.place.Control? && Agrees(s, k) && Allowed(k, c)
    ensures var r := Controlled(s, c, u);
      && r.place == Uncompressed1(u / 65536 * 65536, if PropsByte(c) == [] then ToPrepare else ToProperties)
      && r.need == Nothing && r.m.d.pos == s.m.d.pos + 1 && Produced(r) == Produced(s)
      && r.m.hist == Prepared(k, c).hist
      && (PropsByte(c) == [] ==> Agrees(r, Prepared(k, c)))
  {
    TakenApart(u, 32);
    assert s.before + s.m.hist + [] == s.before + s.m.hist;
  }

  /** The sizes of a compressed chunk. */
  lemma SizesDecode(size: nat, stream: seq<byte>, j: nat, s: Lzma2, u: nat, n: nat, next: Lzma2Model.Next) returns (r: Lzma2)
    requires Path(size, stream, Start(), j, s, SEAL) && u < 0x20_0000 && n < 0x1_0000 && !next.ToCopy?
    requires s.place == Uncompressed1(u / 65536 * 65536, next)
    requires Next(stream, s.m.d.pos, [u / 256 % 256, u % 256, n / 256, n % 256])
    ensures Path(size, stream, Start(), j + 4, r, SEAL)
    ensures r == s.(place := if next.ToProperties? then Properties(u + 1, n + 1) else Prepare(u + 1, n + 1, 5),
                    m := s.m.(d := s.m.d.(pos := s.m.d.pos + 4)))
  {
    var p, h := s.m.d.pos, [u / 256 % 256, u % 256, n / 256, n % 256];
    forall i | 0 <= i < 4
      ensures p + i < |stream| && stream[p + i] == h[i]
    {
      NextAt(stream, p, h, i);
    }
    TakenApart(u, 32);
    TakenApart(n, 1);
    Byte(size, stream, j, s, h[0]);
    var s1 := ByteStep(s, h[0]);
    Byte(size, stream, j + 1, s1, h[1]);
    var s2 := ByteStep(s1, h[1]);
    assert s2.place == Compressed0(u + 1, next);
    Byte(size, stream, j + 2, s2, h[2]);
    var s3 := ByteStep(s2, h[2]);
    Byte(size, stream, j + 3, s3, h[3]);
    r := ByteStep(s3, h[3]);
  }

  /** The header of a compressed chunk. */
  lemma HeaderDecodes(size: nat, stream: seq<byte>, j: nat, s: Lzma2, k: Coder, c: Chunk, u: nat, n: nat) returns (i: nat, r: Lzma2)
    requires AtChunk(size, stream, j, s, k) && CoderOk(size, k) && Allowed(k, c) && c.Compressed?
    requires u < 0x20_0000 && n < 0x1_0000 && Next(stream, s.m.d.pos, Header(c, u, n))
    ensures Path(size, stream, Start(), i, r, SEAL) && r.place == Prepare(u + 1, n + 1, 5)
    ensures Agrees(r, Prepared(k, c)) && r.m.d.pos == s.m.d.pos + |Header(c, u, n)| && Produced(r) == Produced(s)
  {
    var p := s.m.d.pos;
    var h, b := [u / 256 % 256, u % 256, n / 256, n % 256], PropsByte(c);
    assert Header(c, u, n) == [Control(c) + u / 65536] + h + b;
    NextParts(stream, p, [Control(c) + u / 65536] + h, b);
    NextParts(stream, p, [Control(c) + u / 65536], h);
    NextAt(stream, p, [Control(c) + u / 65536], 0);
    ControlledIs(s, k, c, u);
    Byte(size, stream, j, s, Control(c) + u / 65536);
    var s1 := Controlled(s, c, u);
    r := SizesDecode(size, stream, j + 1, s1, u, n, s1.place.next);
    i := j + 5;
    if b != [] {
      NextAt(stream, p + 5, b, 0);
      Byte(size, stream, i, r, b[0]);
      r := ByteStep(r, b[0]);
      i := i + 1;
    }
  }

  lemma TakenApart(x: nat, n: nat)
    requires n == 32 || n == 1
    requires x < n * 65536
    ensures x / 65536 < n && x / 65536 * 65536 + x / 256 % 256 * 256 + x % 256 == x
    ensures n == 32 ==> (0xE0 + x / 65536) % 32 == x / 65536
    ensures n == 1 ==> x / 256 < 256 && x / 256 * 256 + x % 256 == x
  {
  }

  /** The five initial bytes of the range decoder. */
  lemma InitDecodes(size: nat, stream: seq<byte>, k: nat, s: Lzma2, packed: seq<byte>) returns (r: Lzma2)
    requires Path(size, stream, Start(), k, s, SEAL) && s.place.Prepare? && s.place.left == 5 && s.place.c == |packed| >= 5
    requires s.m.d.code == 0 && packed[0] == 0 && Next(stream, s.m.d.pos, packed)
    ensures Path(size, stream, Start(), k + 5, r, SEAL)
    ensures Number(packed, FIRST, INIT) < TWO32
    ensures var d := s.m.d;
      r == s.(place := LzmaRun(s.place.u, s.place.c - 5),
              m := s.m.(d := d.(code := Number(packed, FIRST, INIT), pos := d.pos + 5)))
  {
    InitialNumber(packed);
    r := s;
    var i: nat := 0;
    while i < 5
      invariant i <= 5 && Path(size, stream, Start(), k + i, r, SEAL)
      invariant i > 0 ==> 0 <= Number(packed, FIRST, i) < Pow256(i - 1)
      invariant r == s.(place := if i < 5 then s.place.(left := 5 - i) else LzmaRun(s.place.u, s.place.c - 5),
                        m := s.m.(d := s.m.d.(code := if i == 0 then 0 else Below(packed, i), pos := s.m.d.pos + i)))
    {
      NextAt(stream, s.m.d.pos, packed, i);
      Byte(size, stream, k + i, r, packed[i]);
      if i > 0 {
        NumberBelow(packed, FIRST, i + 1);
      }
      Smaller(i);
      r := ByteStep(r, packed[i]);
      i := i + 1;
    }
  }

  // Number of the first bytes, which fits in 32 bits
  function Below(packed: seq<byte>, i: nat): Word
    requires 1 <= i <= 5 <= |packed|
  {
    NumberBelow(packed, FIRST, i);
    Smaller(i - 1);
    Number(packed, FIRST, i)
  }

  lemma Smaller(n: nat)
    requires n <= 4
    ensures Pow256(n) <= TWO32
  {
    assert Pow256(1) == 256 && Pow256(2) == 65536;
    assert Pow256(3) == 256 * Pow256(2) && Pow256(4) == 256 * Pow256(3);
  }

  lemma {:induction false} SymbolsGrow(c: Config, m: Machine, inp: seq<byte>, n: nat)
    requires MachineOk(c, m) && Symbols(c, m, inp, n).Some?
    ensures var r := Symbols(c, m, inp, n).value; MachineOk(c, r) && |m.hist| + n <= |r.hist|
    decreases n
  {
    if n > 0 {
      SymbolsGrow(c, Symbol(c, m, inp).value, inp, n - 1);
    }
  }

  /** Symbols decoded one after the other are rounds of lzma_main. */
  lemma {:induction false} SymbolsReach(c: Config, m: Machine, inp: seq<byte>, n: nat, bound: nat)
    requires MachineOk(c, m) && Symbols(c, m, inp, n).Some? && bound == |Symbols(c, m, inp, n).value.hist|
    ensures var r := Symbols(c, m, inp, n).value;
      && MachineOk(c, NormalizeMachine(m, inp)) && MachineOk(c, NormalizeMachine(r, inp))
      && Reaches(c, NormalizeMachine(m, inp), inp, n, bound, NormalizeMachine(r, inp))
    decreases n
  {
    SymbolsGrow(c, m, inp, n);
    if n > 0 {
      RoundFrom(c, m, inp);
      SymbolsReach(c, Symbol(c, m, inp).value, inp, n - 1, bound);
    }
  }

  /** The compressed data of a chunk, up to its last byte, when rounds of lzma_main over `inp` use it up. */
  lemma PackedDecodes(size: nat, stream: seq<byte>, j: nat, s: Lzma2, inp: seq<byte>, m: Machine, p: nat, n: nat, end: Machine)
      returns (i: nat, r: Lzma2)
    requires Next(stream, p, inp) && |inp| >= 5 && m.d.pos == 5
    requires Path(size, stream, Start(), j, s, SEAL) && s.place == LzmaRun(|end.hist| - |m.hist|, |inp| - 5)
    requires s.m == MovedMachine(m, p)
    requires Went(Config(s.props, size), m, inp, n, |end.hist|, |inp|, end, true, SEAL)
    requires end.d.code == 0 && end.d.pos == |inp|
    ensures Path(size, stream, Start(), i, r, SEAL)
    ensures r == s.(place := Place.Control, m := RcReset(MovedMachine(end, p)))
  {
    SameThere(stream, p, inp);
    PathIs(size, stream, Start(), j, s);
    var k := WentOn(size, stream, |stream|, s, m, inp, p, |inp|, |inp|, n, |end.hist|, end, true);
    var t := Advanced(s, end, p);
    PathThen(size, stream, Start(), j, s, k, t);
    PathUnprompted(size, stream, |stream|, Start(), j + k, t);
    i, r := j + k + 1, ChunkEnd(t);
  }

  lemma SameThere(stream: seq<byte>, p: nat, inp: seq<byte>)
    requires Next(stream, p, inp) && |inp| >= 5
    ensures SameBytes(inp, Upto(stream, p + |inp|), 5, |inp|, p)
  {
    forall i | 5 <= i < |inp|
      ensures At(inp, i) == At(Upto(stream, p + |inp|), i + p)
    {
      NextAt(stream, p, inp, i);
    }
  }

  /** The symbols of a chunk as rounds of lzma_main over its packed bytes: they use them up, and the code
      that is left is 0. */
  lemma PackedReaches(size: nat, p: Coder, c: Chunk) returns (n: nat, end: Machine)
    requires Fits(size, p, c) && c.Compressed?
    ensures var inp := Packed(size, p, c);
      Went(Config(p.props, size), Machine(FreshDec(inp, p.probs), p.lz, p.hist), inp, n, |end.hist|, |inp|, end, true, SEAL)
    ensures After(size, p, c) == Coder(Nothing, p.props, end.d.probs, end.lz, end.hist)
    ensures end.d.code == 0 && end.d.pos == |Packed(size, p, c)|
  {
    var inp := Packed(size, p, c);
    n := |c.symbols|;
    var conf := Config(p.props, size);
    var m := Machine(FreshDec(inp, p.probs), p.lz, p.hist);
    EncodedChunkDecodes(conf, p.probs, p.lz, p.hist, c.symbols);
    var last := Symbols(conf, m, inp, n).value;
    SymbolsReach(conf, m, inp, n, |last.hist|);
    assert NormalizeMachine(m, inp) == m;
    end := NormalizeMachine(last, inp);
    WentIs(conf, m, inp, n, |last.hist|, |inp|, end, true);
  }

  // a compressed chunk without its header
  lemma BodyDecodes(size: nat, stream: seq<byte>, j: nat, s: Lzma2, p: Coder, c: Chunk) returns (i: nat, r: Lzma2)
    requires Path(size, stream, Start(), j, s, SEAL) && Agrees(s, p) && Fits(size, p, c) && c.Compressed?
    requires s.place == Prepare(|Data(size, p, c)|, |Packed(size, p, c)|, 5) && Next(stream, s.m.d.pos, Packed(size, p, c))
    ensures AtChunk(size, stream, i, r, After(size, p, c)) && Produced(r) == Produced(s) + Data(size, p, c)
    ensures r.m.d.pos == s.m.d.pos + |Packed(size, p, c)|
  {
    var packed := Packed(size, p, c);
    var s2 := InitDecodes(size, stream, j, s, packed);
    var rounds, end := PackedReaches(size, p, c);
    MeaningGrows(size, p.lz, p.hist, c.symbols);
    i, r := PackedDecodes(size, stream, j + 5, s2, packed, Machine(FreshDec(packed, p.probs), p.lz, p.hist),
                          s.m.d.pos, rounds, end);
    assert end.hist == p.hist + Data(size, p, c);
    Associates(s.before, p.hist, Data(size, p, c));
  }

  /** A compressed chunk. */
  lemma CompressedDecodes(size: nat, stream: seq<byte>, j: nat, s: Lzma2, k: Coder, c: Chunk) returns (i: nat, r: Lzma2)
    requires AtChunk(size, stream, j, s, k) && ChunkOk(size, k, c) && c.Compressed? && Next(stream, s.m.d.pos, Encoded(size, k, c))
    ensures Fits(size, Prepared(k, c), c) && AtChunk(size, stream, i, r, After(size, Prepared(k, c), c))
    ensures Produced(r) == Produced(s) + Data(size, Prepared(k, c), c)
    ensures r.m.d.pos == s.m.d.pos + |Encoded(size, k, c)|
  {
    PreparedOk(size, k, c);
    var p := Prepared(k, c);
    var packed, u, n := Packed(size, p, c), |Data(size, p, c)| - 1, |Packed(size, p, c)| - 1;
    NextParts(stream, s.m.d.pos, Header(c, u, n), packed);
    var j1, s1 := HeaderDecodes(size, stream, j, s, k, c, u, n);
    i, r := BodyDecodes(size, stream, j1, s1, p, c);
  }

  lemma ChunkDecodes(size: nat, stream: seq<byte>, j: nat, s: Lzma2, k: Coder, c: Chunk) returns (i: nat, r: Lzma2)
    requires AtChunk(size, stream, j, s, k) && ChunkOk(size, k, c) && Next(stream, s.m.d.pos, Encoded(size, k, c))
    ensures Fits(size, Prepared(k, c), c) && AtChunk(size, stream, i, r, After(size, Prepared(k, c), c))
    ensures Produced(r) == Produced(s) + Data(size, Prepared(k, c), c)
    ensures r.m.d.pos == s.m.d.pos + |Encoded(size, k, c)|
  {
    if c.Stored? {
      i, r := StoredDecodes(size, stream, j, s, k, c);
    } else {
      i, r := CompressedDecodes(size, stream, j, s, k, c);
    }
  }

  lemma Associates(a: seq<byte>, b: seq<byte>, c: seq<byte>)
    ensures a + b + c == a + (b + c)
  {
  }

  lemma NextParts(stream: seq<byte>, pos: nat, a: seq<byte>, b: seq<byte>)
    requires Next(stream, pos, a + b)
    ensures Next(stream, pos, a) && Next(stream, pos + |a|, b)
  {
    var all := a + b;
    assert stream[pos..pos + |all|][..|a|] == stream[pos..pos + |a|];
    assert stream[pos..pos + |all|][|a|..] == stream[pos + |a|..pos + |a| + |b|];
  }

  lemma EndDecodes(size: nat, stream: seq<byte>, j: nat, s: Lzma2, k: Coder) returns (i: nat)
    requires AtChunk(size, stream, j, s, k) && Next(stream, s.m.d.pos, [0])
    ensures Ends(size, stream, Start(), i, Produced(s), s.m.d.pos + 1)
  {
    NextAt(stream, s.m.d.pos, [0], 0);
    PathControl(size, stream, |stream|, Start(), j, s, 0);
    i := j + 1;
  }

  lemma {:induction false} ChunksDecode(size: nat, stream: seq<byte>, j: nat, s: Lzma2, k: Coder, cs: seq<Chunk>) returns (i: nat)
    requires AtChunk(size, stream, j, s, k) && AllOk(size, k, cs) && Next(stream, s.m.d.pos, EncodedAll(size, k, cs))
    ensures Ends(size, stream, Start(), i, Produced(s) + DataAll(size, k, cs), s.m.d.pos + |EncodedAll(size, k, cs)|)
    decreases cs
  {
    var p := s.m.d.pos;
    if cs == [] {
      i := EndDecodes(size, stream, j, s, k);
      assert Produced(s) + [] == Produced(s);
    } else {
      var k' := After(size, Prepared(k, cs[0]), cs[0]);
      NextParts(stream, p, Encoded(size, k, cs[0]), EncodedAll(size, k', cs[1..]));
      var j1, r := ChunkDecodes(size, stream, j, s, k, cs[0]);
      i := ChunksDecode(size, stream, j1, r, k', cs[1..]);
      Associates(Produced(s), Data(size, Prepared(k, cs[0]), cs[0]), DataAll(size, k', cs[1..]));
    }
  }

  /** Decoding inverts encoding: every list of chunks that makes the necessary resets has an encoding whose
      meaning is the data of the chunks, and that is used up to its last byte. */
  lemma StreamRoundTrip(size: nat, cs: seq<Chunk>) returns (i: nat)
    requires AllOk(size, Begin(), cs)
    ensures Ends(size, EncodedAll(size, Begin(), cs), Start(), i, DataAll(size, Begin(), cs), |EncodedAll(size, Begin(), cs)|)
  {
    var stream := EncodedAll(size, Begin(), cs);
    PathStep(size, stream, Start());
    assert stream[0..|stream|] == stream;
    i := ChunksDecode(size, stream, 0, Start(), Begin(), cs);
    assert Produced(Start()) + DataAll(size, Begin(), cs) == DataAll(size, Begin(), cs);
  }
}
