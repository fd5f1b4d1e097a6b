/**
 Reading the fixed parts of the container: which Block Headers, multibyte integers and CRC32 fields are refused.
 */
module XzHeader {
  import opened Arithmetic
  import opened Common
  import opened Words
  import opened XzCrc32
  import opened XzFormat
  import opened XzMachine

  lemma SameSlice(s: seq<byte>, t: seq<byte>, a: nat, b: nat)
    requires s == t && a <= b <= |s|
    ensures s[a..b] == t[a..b]
  {
  }

  lemma StreamHeaderParts(t: seq<byte>)
    requires |t| == 12
    ensures t[7] <= 1 && t == StreamHeader(t[7]) <==>
      && t[..6] == [0xFD, '7' as int, 'z' as int, 'X' as int, 'Z' as int, 0] && t[6] == 0 && t[7] <= 1
      && t[8..] == Le(Crc([t[6], t[7]], 0), 4)
  {
    var magic: seq<byte> := [0xFD, '7' as int, 'z' as int, 'X' as int, 'Z' as int, 0];
    assert t == t[..6] + [t[6], t[7]] + t[8..];
    if t[7] <= 1 {
      var h := StreamHeader(t[7]);
      assert h[..6] == magic && h[6] == 0 && h[8..] == Le(Crc([0, t[7]], 0), 4);
    }
  }

  // one more byte of `w`, or another one
  lemma OneMoreByte(w: seq<byte>, k: nat, x: byte)
    requires k < |w|
    ensures x == w[k] ==> w[..k] + [x] == w[..k + 1]
    ensures x != w[k] ==> Mismatch(w, w[..k] + [x])
  {
    assert (w[..k] + [x])[..k] == w[..k];
  }

  lemma FooterParts(t: seq<byte>, check: nat, n: nat)
    requires |t| == 12 && check <= 1 && n >= 4
    ensures t == StreamFooter(check, n) <==>
      && t[..4] == Le(Crc(t[4..10], 0), 4) && t[4..8] == Le(n / 4, 4) && t[8] == 0 && t[9] == check
      && t[10..] == ['Y' as int, 'Z' as int]
  {
    var body := Le(n / 4, 4) + [0, check];
    assert t == t[..4] + t[4..10] + t[10..] && t[4..10] == t[4..8] + [t[8], t[9]];
    if t == StreamFooter(check, n) {
      assert t[4..10] == body && body[..4] == Le(n / 4, 4) && body[4] == 0 && body[5] == check;
    }
  }

  /** `t` is not a Block Header that is supported. */
  ghost predicate Refuses(u: Setup, t: seq<byte>) { forall g :: HeaderIs(t, g) ==> !Supports(u, g.filters) }

  // the bits of the Block Flags
  predicate FlagBcj(b: byte) { b % 2 == 1 }
  predicate FlagReserved(b: byte) { b / 2 % 32 != 0 }
  predicate FlagCompressed(b: byte) { b / 64 % 2 == 1 }
  predicate FlagUncompressed(b: byte) { b / 128 % 2 == 1 }

  lemma FlagsAre(h: Header)
    ensures var b := Flags(h);
      && !FlagReserved(b) && FlagBcj(b) == h.filters.bcj.Some?
      && FlagCompressed(b) == h.compressed.Some? && FlagUncompressed(b) == h.uncompressed.Some?
  {
  }

  lemma FlagsBack(b: byte, h: Header)
    requires !FlagReserved(b) && FlagBcj(b) == h.filters.bcj.Some?
    requires FlagCompressed(b) == h.compressed.Some? && FlagUncompressed(b) == h.uncompressed.Some?
    ensures b == Flags(h)
  {
    assert b == b % 2 + 2 * (b / 2 % 32) + 64 * (b / 64 % 2) + 128 * (b / 128 % 2);
  }

  predicate Framed(t: seq<byte>) { |t| >= 8 && t[0] != 0 && |t| == HeaderSize(t[0]) }

  lemma RefuseStart(u: Setup, t: seq<byte>)
    requires Framed(t) && (t[|t| - 4..] != Le(Crc(t[..|t| - 4], 0), 4) || FlagReserved(t[1]))
    ensures Refuses(u, t)
  {
    forall g
      ensures HeaderIs(t, g) ==> !Supports(u, g.filters)
    {
      if HeaderIs(t, g) {
        HeaderHas(t, g);
        FlagsAre(g);
      }
    }
  }

  lemma RefuseCompressed(u: Setup, t: seq<byte>)
    requires Framed(t) && NoOpt(FlagCompressed(t[1]), t[2..|t| - 4])
    ensures Refuses(u, t)
  {
    forall g
      ensures HeaderIs(t, g) ==> !Supports(u, g.filters)
    {
      if HeaderIs(t, g) {
        HeaderHas(t, g);
        FlagsAre(g);
      }
    }
  }

  lemma RefuseUncompressed(u: Setup, t: seq<byte>, c: Option<nat>, s: seq<byte>)
    requires Framed(t) && c.Some? == FlagCompressed(t[1]) && t[2..|t| - 4] == OptBytes(c) + s
    requires NoOpt(FlagUncompressed(t[1]), s)
    ensures Refuses(u, t)
  {
    forall g
      ensures HeaderIs(t, g) ==> !Supports(u, g.filters)
    {
      if HeaderIs(t, g) {
        HeaderHas(t, g);
        FlagsAre(g);
        var z := Zeros(|t| - 6 - FieldsSize(g));
        SameOpt(c, s, g.compressed, OptBytes(g.uncompressed) + (FilterBytes(g.filters) + z));
      }
    }
  }

  lemma RefuseFilters(u: Setup, t: seq<byte>, c: Option<nat>, n: Option<nat>, s: seq<byte>)
    requires Framed(t) && c.Some? == FlagCompressed(t[1]) && n.Some? == FlagUncompressed(t[1])
    requires t[2..|t| - 4] == OptBytes(c) + (OptBytes(n) + s)
    requires NoFilters(u, FlagBcj(t[1]), s)
    ensures Refuses(u, t)
  {
    forall g
      ensures HeaderIs(t, g) ==> !Supports(u, g.filters)
    {
      if HeaderIs(t, g) {
        HeaderHas(t, g);
        FlagsAre(g);
        var z := Zeros(|t| - 6 - FieldsSize(g));
        SameOpt(c, OptBytes(n) + s, g.compressed, OptBytes(g.uncompressed) + (FilterBytes(g.filters) + z));
        SameOpt(n, s, g.uncompressed, FilterBytes(g.filters) + z);
      }
    }
  }

  lemma RefusePadding(u: Setup, t: seq<byte>, h: Header, s: seq<byte>)
    requires Framed(t) && h.compressed.Some? == FlagCompressed(t[1]) && h.uncompressed.Some? == FlagUncompressed(t[1])
    requires h.filters.bcj.Some? == FlagBcj(t[1]) && (h.filters.bcj.Some? ==> h.filters.bcj.value < 0x100)
    requires t[2..|t| - 4] == Fields(h, s) && s != Zeros(|s|)
    ensures Refuses(u, t)
  {
    forall g
      ensures HeaderIs(t, g) ==> !Supports(u, g.filters)
    {
      if HeaderIs(t, g) {
        PaddingIs(t, h, s, g);
      }
    }
  }

  // what is left behind the fields of a Block Header is its padding
  lemma PaddingIs(t: seq<byte>, h: Header, s: seq<byte>, g: Header)
    requires Framed(t) && h.compressed.Some? == FlagCompressed(t[1]) && h.uncompressed.Some? == FlagUncompressed(t[1])
    requires h.filters.bcj.Some? == FlagBcj(t[1]) && (h.filters.bcj.Some? ==> h.filters.bcj.value < 0x100)
    requires t[2..|t| - 4] == Fields(h, s) && HeaderIs(t, g)
    ensures s == Zeros(|s|)
  {
    HeaderHas(t, g);
    SameFlags(t[1], h, g);
    PaddingOf(h, s, g, Zeros(|t| - 6 - FieldsSize(g)));
  }

  lemma SameFlags(b: byte, h: Header, g: Header)
    requires h.compressed.Some? == FlagCompressed(b) && h.uncompressed.Some? == FlagUncompressed(b)
    requires h.filters.bcj.Some? == FlagBcj(b) && b == Flags(g)
    ensures Flags(h) == Flags(g)
  {
    FlagsAre(g);
    FlagsBack(b, h);
  }

  lemma PaddingOf(h: Header, s: seq<byte>, g: Header, z: seq<byte>)
    requires Fields(h, s) == Fields(g, z) && Flags(h) == Flags(g) && z == Zeros(|z|)
    requires (h.filters.bcj.Some? ==> h.filters.bcj.value < 0x100) && (g.filters.bcj.Some? ==> g.filters.bcj.value < 0x100)
    ensures s == Zeros(|s|)
  {
    SameFields(h, s, g, z);
  }

  // the fields of a Block Header, one after the other
  lemma HeaderParts(t: seq<byte>, h: Header, zeros: nat)
    requires |t| > 8 && t[0] != 0 && |t| == HeaderSize(t[0])
    requires t[1] == Flags(h) && InRange(h.compressed) && InRange(h.uncompressed)
    requires h.filters.bcj.Some? ==> h.filters.bcj.value < 0x100
    requires t[2..|t| - 4] == Fields(h, Zeros(zeros)) && t[|t| - 4..] == Le(Crc(t[..|t| - 4], 0), 4)
    ensures HeaderIs(t, h)
  {
    var c := Le(Crc(t[..|t| - 4], 0), 4);
    FieldsJoin(h, Zeros(zeros), c);
    TailParts(t, Fields(h, Zeros(zeros)), c);
  }

  lemma HeaderHas(t: seq<byte>, h: Header)
    requires HeaderIs(t, h)
    ensures t[|t| - 4..] == Le(Crc(t[..|t| - 4], 0), 4)
    ensures t[2..|t| - 4] == Fields(h, Zeros(|t| - 6 - FieldsSize(h)))
  {
    HeaderHasBy(t, h, Zeros(|t| - 6 - FieldsSize(h)), Le(Crc(t[..|t| - 4], 0), 4));
  }

  lemma HeaderHasBy(t: seq<byte>, h: Header, z: seq<byte>, c: seq<byte>)
    requires HeaderIs(t, h) && z == Zeros(|t| - 6 - FieldsSize(h)) && c == Le(Crc(t[..|t| - 4], 0), 4)
    ensures t[|t| - 4..] == c && t[2..|t| - 4] == Fields(h, z)
  {
    assert HeaderEnd(t, |t| - 6 - FieldsSize(h)) == z + c;
    FieldsEnd(t, h, z, c);
  }

  lemma FieldsEnd(t: seq<byte>, h: Header, z: seq<byte>, c: seq<byte>)
    requires |t| >= 6 && |c| == 4 && t[2..] == Fields(h, z + c)
    ensures t[2..|t| - 4] == Fields(h, z) && t[|t| - 4..] == c
  {
    FieldsJoin(h, z, c);
    TailParts(t, Fields(h, z), c);
  }

  lemma FieldsJoin(h: Header, s: seq<byte>, c: seq<byte>)
    ensures Fields(h, s + c) == Fields(h, s) + c && |Fields(h, s)| == FieldsSize(h) + |s|
  {
    var x, y, z := OptBytes(h.compressed), OptBytes(h.uncompressed), FilterBytes(h.filters);
    assert z + (s + c) == z + s + c;
    assert y + (z + s + c) == y + (z + s) + c;
    assert x + (y + (z + s) + c) == x + (y + (z + s)) + c;
  }

  lemma TailParts(t: seq<byte>, x: seq<byte>, c: seq<byte>)
    requires |t| >= 6 && |c| == 4
    ensures t[2..] == x + c <==> t[2..|t| - 4] == x && t[|t| - 4..] == c
  {
    var n := |t| - 4;
    assert t[2..] == t[2..n] + t[n..];
    if t[2..] == x + c {
      assert t[2..n] == t[2..][..n - 2] == x && t[n..] == t[2..][n - 2..] == c;
    }
  }

  lemma LeIsWord(s: seq<byte>)
    requires |s| == 4
    ensures LeValue(s) < TWO32 && forall y: Word :: LeValue(s) == y <==> Le(y, 4) == s
  {
    assert Pow256(4) == TWO32;
    forall y: Word
      ensures LeValue(s) == y <==> Le(y, 4) == s
    {
      LeSame(y, s, TWO32);
    }
    LeSame(0, s, TWO32);
  }

  ghost predicate NoOpt(flag: bool, s: seq<byte>) {
    forall p: Option<nat>, r: seq<byte> :: p.Some? == flag && InRange(p) ==> s != OptBytes(p) + r
  }

  predicate FiltersOk(u: Setup, f: Filters) { Supports(u, f) && (f.bcj.Some? ==> f.bcj.value < 0x100) }

  predicate HasFilters(u: Setup, bcj: bool, s: seq<byte>) {
    var k := if bcj then 2 else 0;
    && |s| >= k + 3 && s[k] == 0x21 && s[k + 1] == 0x01 && u.takesProps(s[k + 2])
    && (bcj ==> u.knowsBcj(s[0]) && s[1] == 0)
  }

  lemma FiltersShape(u: Setup, bcj: bool, s: seq<byte>)
    ensures HasFilters(u, bcj, s) ==>
      var k := if bcj then 2 else 0;
      s == FilterBytes(Filters(if bcj then Some(s[0]) else None, s[k + 2])) + s[k + 3..]
    ensures !HasFilters(u, bcj, s) ==> NoFilters(u, bcj, s)
  {
    forall g: Filters, r: seq<byte> | g.bcj.Some? == bcj && FiltersOk(u, g) && s == FilterBytes(g) + r
      ensures HasFilters(u, bcj, s)
    {
      var k := if bcj then 2 else 0;
      assert FilterBytes(g)[k] == 0x21 && FilterBytes(g)[k + 1] == 1 && FilterBytes(g)[k + 2] == g.props;
    }
  }

  ghost predicate NoFilters(u: Setup, bcj: bool, s: seq<byte>) {
    forall g: Filters, r: seq<byte> :: g.bcj.Some? == bcj && FiltersOk(u, g) ==> s != FilterBytes(g) + r
  }

  // no integer at the beginning of `s`: dec_vli refuses its byte number k - 1, or all of it goes on
  lemma NotVli(s: seq<byte>, k: nat)
    requires k <= |s| && (Refused(s[..k]) || (k == |s| && Continuing(s)))
    ensures NoOpt(true, s)
  {
    forall p: Option<nat>, r: seq<byte> | p.Some? && InRange(p)
      ensures s != OptBytes(p) + r
    {
      if s == VliBytes(p.value) + r {
        VliInFront(s, k, p.value, r);
      }
    }
  }

  // an integer in front of `s` is not refused, and comes to an end
  lemma VliInFront(s: seq<byte>, k: nat, x: nat, r: seq<byte>)
    requires k <= |s| && s == VliBytes(x) + r && x < TWO63
    ensures !Refused(s[..k]) && !(k == |s| && Continuing(s))
  {
    var v := VliBytes(x);
    VliShape(x);
    assert s[|v| - 1] == v[|v| - 1];
    if Refused(s[..k]) {
      RefusedInside(s, k, v, r);
      var part := v[..k - 1];
      assert s[..k] == part + [v[k - 1]] && part + v[k - 1..] == v;
      VliPiece(part, v[k - 1..], x);
    }
  }

  lemma RefusedInside(s: seq<byte>, k: nat, v: seq<byte>, r: seq<byte>)
    requires k <= |s| && s == v + r && v != [] && v[|v| - 1] < 128 && Refused(s[..k])
    ensures |v| >= k && s[..k][..k - 1] == v[..k - 1]
  {
    if |v| < k {
      EndsInside(s, k, v, r);
    }
  }

  lemma EndsInside(s: seq<byte>, k: nat, v: seq<byte>, r: seq<byte>)
    requires k <= |s| && s == v + r && v != [] && v[|v| - 1] < 128 && |v| < k
    ensures !Continuing(s[..k][..k - 1])
  {
    assert s[..k][..k - 1][|v| - 1] == v[|v| - 1];
  }

  lemma {:induction false} ZerosAre(n: nat)
    ensures forall i :: 0 <= i < n ==> Zeros(n)[i] == 0
    decreases n
  {
    if n > 0 {
      ZerosAre(n - 1);
    }
  }

  // dec_vli refuses the last byte
  predicate Refused(whole: seq<byte>) {
    && 0 < |whole| <= VLI_BYTES_MAX && Continuing(whole[..|whole| - 1])
    && VliNext(whole[..|whole| - 1], whole[|whole| - 1]) == VliStep.Bad
  }

  // `t` differs from the beginning of `w` in its last byte
  predicate Mismatch(w: seq<byte>, t: seq<byte>) {
    0 < |t| <= |w| && t[..|t| - 1] == w[..|t| - 1] && t[|t| - 1] != w[|t| - 1]
  }
}
