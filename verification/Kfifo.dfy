/**
 struct __kfifo of compat/kfifo.c in place: elements of any size, and the record mode. Seen from outside it is a
 queue; the two-part copies around the end of the buffer and the wrapping of the indices do not show.
 */
module Kfifo {
  import opened Arithmetic
  import opened Common
  import opened Words
  import opened Memory
  import opened FifoCells
  import opened FifoRecords
  import P = FifoProtocol

  class Fifo {
    const data: array<byte>
    var ins: Word
    var outs: Word
    const mask: nat
    const esize: nat
    ghost var log: P.Log<seq<byte>>

    /** __kfifo_init, when there is room for two elements: the number of cells is rounded down to a power of two. */
    constructor (buffer: array<byte>, esize: nat)
      requires esize > 0 && buffer.Length < TWO32 && buffer.Length / esize >= 2
      ensures Valid() && Elements() == [] && data == buffer && this.esize == esize
      ensures mask + 1 <= buffer.Length / esize < 2 * (mask + 1)
    {
      NumberOfCells(buffer.Length, esize);
      ghost var n := RoundDown(buffer.Length / esize);
      ConsistentIs(P.Fifo(n, Cells(buffer[..], n, esize), 0, 0, P.WIdle, P.RIdle), P.Log([], 0));
      data, mask, this.esize := buffer, RoundDown(buffer.Length / esize) - 1, esize;
      ins, outs := 0, 0;
      log := P.Log([], 0);
    }

    // the cells are within the buffer, and its size is an unsigned int
    ghost predicate Fits() {
      Bytes(mask + 1, esize) <= data.Length < TWO32
    }

    ghost function State(): P.Fifo<seq<byte>>
      requires Fits()
      reads this, data
    {
      Was(data[..])
    }

    ghost predicate Valid()
      reads this, data
    {
      Fits() && |Elements()| <= mask + 1 && Consistent(State(), log, SEAL)
    }

    ghost function Elements(): seq<seq<byte>>
      reads `log
    {
      if log.consumed <= |log.written| then log.written[log.consumed..] else []
    }

    /** The unread elements as bytes. */
    ghost function Contents(): seq<byte>
      reads `log
    {
      Flat(Elements())
    }

    /** kfifo_unused */
    method Unused() returns (n: nat)
      requires Valid()
      ensures n == mask + 1 - |Elements()|
    {
      Counts();
      n := (mask + 1 - (ins - outs)) % TWO32;
    }

    /** The differences of the indices count the elements, and cells are found after wrapping too. */
    lemma Counts()
      requires Valid()
      ensures log.consumed <= |log.written| && |Elements()| <= mask + 1 <= 0x8000_0000 && Wraps(mask + 1)
      ensures (ins - outs) % TWO32 == |Elements()| && (mask + 1 - (ins - outs)) % TWO32 == mask + 1 - |Elements()|
      ensures ins == outs <==> Elements() == []
    {
      ConsistentIs(State(), log);
      P.LenIs(State(), log);
      WrapsIs(mask + 1);
      UnsignedDifference(mask + 1, ins - outs);
      DivModIs(ins - outs, TWO32, if ins < outs then -1 else 0, if ins < outs then ins - outs + TWO32 else ins - outs);
    }

    lemma UnsignedDifference(size: nat, d: int)
      ensures (size - d) % TWO32 == (size - d % TWO32) % TWO32
    {
      var q := d / TWO32;
      assert d == q * TWO32 + d % TWO32;
      ModMultiple(size - d % TWO32, -q, TWO32);
    }

    /** kfifo_copy_in: `len` elements go to the cells from index `off` on, around the end of the buffer. The products
        fit 32 bits, since the buffer does. */
    method CopyIn(src: array<byte>, len: nat, off: Word)
      requires Fits() && src != data && Bytes(len, esize) <= src.Length && len <= mask + 1
      modifies data
      ensures Stored(Cells(data[..], mask + 1, esize), old(Cells(data[..], mask + 1, esize)), Slot(off, mask + 1), Cells(src[..], len, esize))
    {
      var size := mask + 1;
      var at := Slot(off, size);
      ScaledMin(len, size, at, esize);
      var from, all, n := at * esize, size * esize, len * esize;
      var l := Min(n, all - from);
      ghost var d0, v := data[..], src[..];
      CopiedAround(d0, size, esize, at, v, len);
      MemCopy(src, 0, data, from, l);
      MemCopy(src, l, data, 0, n - l);
    }

    /** kfifo_copy_out: the reverse. */
    method CopyOut(dst: array<byte>, len: nat, off: Word)
      requires Fits() && dst != data && Bytes(len, esize) <= dst.Length && len <= mask + 1
      modifies dst
      ensures Fetched(Cells(dst[..], len, esize), Cells(data[..], mask + 1, esize), Slot(off, mask + 1))
      ensures dst[Bytes(len, esize)..] == old(dst[Bytes(len, esize)..])
    {
      var size := mask + 1;
      var at := Slot(off, size);
      ScaledMin(len, size, at, esize);
      var from, all, n := at * esize, size * esize, len * esize;
      var l := Min(n, all - from);
      ghost var d0, d := dst[..], data[..];
      CopiedBack(d, size, esize, at, d0, len);
      CopyParts(dst, from, l, n);
      assert dst[n..] == dst[..][n..] && d0[n..] == old(dst[n..]);
    }

    method CopyParts(dst: array<byte>, from: nat, l: nat, n: nat)
      requires dst != data && l <= n <= dst.Length && from + l <= data.Length && n - l <= data.Length
      modifies dst
      ensures dst[..] == Overwrite(Overwrite(old(dst[..]), 0, data[..][from..from + l]), l, data[..][0..0 + (n - l)])
    {
      MemCopy(data, from, dst, 0, l);
      MemCopy(data, 0, dst, l, n - l);
    }

    /** __kfifo_in: as many of the elements as there is room for are appended. */
    method In(buf: array<byte>, len: nat) returns (n: nat)
      requires Valid() && buf != data && Bytes(len, esize) <= buf.Length
      modifies `ins, `log, data
      ensures Valid() && n == Min(len, mask + 1 - |old(Elements())|)
      ensures Bytes(n, esize) <= buf.Length && Elements() == old(Elements()) + Cells(buf[..], n, esize)
      ensures Contents() == old(Contents()) + buf[..Bytes(n, esize)]
    {
      var l := Unused();
      n := Min(len, l);
      ghost var d0 := data[..];
      Counts();
      BytesUpto(n, len, esize);
      CopyIn(buf, n, ins);
      Append(n, d0, Cells(buf[..], n, esize));
      FlatCells(buf[..], n, esize);
    }

    // the index is advanced past what has been stored
    method Append(n: nat, ghost d0: seq<byte>, ghost vals: seq<seq<byte>>)
      requires Fits() && |d0| == data.Length && Consistent(Was(d0), log, SEAL)
      requires n == |vals| <= mask + 1 - |Elements()| && log.consumed <= |log.written|
      requires Stored(Cells(data[..], mask + 1, esize), Cells(d0, mask + 1, esize), Slot(ins, mask + 1), vals)
      modifies `ins, `log
      ensures Valid() && Elements() == old(Elements()) + vals && Contents() == old(Contents()) + Flat(vals)
    {
      FlatJoin(Elements(), vals);
      StoredKeeps(Was(d0), log, Was(data[..]).(ins := (ins + n) % TWO32), vals);
      ins := (ins + n) % TWO32;
      assert (log.written + vals)[log.consumed..] == log.written[log.consumed..] + vals;
      log := P.Log(log.written + vals, log.consumed);
    }

    // the cells that hold the unread elements
    lemma Unread(i: nat)
      requires Valid() && i < |Elements()|
      ensures Cells(data[..], mask + 1, esize)[Around(Slot(outs, mask + 1), i, mask + 1)] == Elements()[i]
      ensures |Elements()[i]| == esize
    {
      var k := log.consumed + i;
      Counts();
      ConsistentIs(State(), log);
      assert P.Holds(State(), k, log.written[k]);
      WrapsIs(mask + 1);
      P.CellOf(log.consumed, mask + 1);
      AroundIs(log.consumed, i, mask + 1);
      SlotIs(outs, mask + 1);
      SlotIs(log.consumed, mask + 1);
      SlotIs(k, mask + 1);
      CellAt(data[..], mask + 1, esize, Around(Slot(outs, mask + 1), i, mask + 1));
    }

    lemma AllSized()
      requires Valid()
      ensures Sized(Elements(), esize) && |Contents()| == Bytes(|Elements()|, esize)
    {
      forall i | 0 <= i < |Elements()|
        ensures |Elements()[i]| == esize
      {
        Unread(i);
      }
      FlatSized(Elements(), esize);
    }

    /** __kfifo_out_peek: the oldest elements, which stay in the fifo. */
    method OutPeek(buf: array<byte>, len: nat) returns (n: nat)
      requires Valid() && buf != data && Bytes(len, esize) <= buf.Length
      modifies buf
      ensures Valid() && n == Min(len, |Elements()|)
      ensures var m := Bytes(n, esize);
        m <= buf.Length && m <= |Contents()| && buf[..m] == Contents()[..m] && buf[m..] == old(buf[m..])
    {
      Counts();
      n := Min(len, (ins - outs) % TWO32);
      BytesUpto(n, len, esize);
      CopyOut(buf, n, outs);
      assert Cells(buf[..], n, esize) == Elements()[..n] by {
        forall i | 0 <= i < n
          ensures Cells(buf[..], n, esize)[i] == Elements()[i]
        {
          Unread(i);
        }
      }
      FlatCells(buf[..], n, esize);
      AllSized();
      FlatParts(Elements(), n, esize);
    }

    /** __kfifo_out */
    method Out(buf: array<byte>, len: nat) returns (n: nat)
      requires Valid() && buf != data && Bytes(len, esize) <= buf.Length
      modifies `outs, `log, buf
      ensures Valid() && n == Min(len, |old(Elements())|) && Elements() == old(Elements())[n..]
      ensures var m := Bytes(n, esize);
        && m <= buf.Length && m <= |old(Contents())| && buf[..m] == old(Contents())[..m] && buf[m..] == old(buf[m..])
        && Contents() == old(Contents())[m..]
    {
      n := OutPeek(buf, len);
      Drop(n);
    }

    // the index is advanced past what has been read
    method Drop(n: nat)
      requires Valid() && n <= |Elements()|
      modifies `outs, `log
      ensures Valid() && Elements() == old(Elements())[n..]
      ensures Bytes(n, esize) <= |old(Contents())| && Contents() == old(Contents())[Bytes(n, esize)..]
    {
      AllSized();
      FlatParts(Elements(), n, esize);
      Counts();
      DropKeeps(State(), log, n);
      outs := (outs + n) % TWO32;
      log := log.(consumed := log.consumed + n);
    }

    // ---- record mode: the elements are single bytes

    // a byte and its cell
    lemma ByteCell(i: nat)
      requires Fits() && esize == 1 && i <= mask
      ensures mask + 1 <= data.Length && Cells(data[..], mask + 1, 1)[i] == [data[i]]
    {
      BytesIs(mask + 1, 1);
      SingleAt(data[..], mask + 1, i);
    }

    lemma UnreadByte(i: nat)
      requires Valid() && esize == 1
      ensures |Contents()| == |Elements()| <= mask + 1 <= data.Length
      ensures i < |Contents()| ==> data[Around(Slot(outs, mask + 1), i, mask + 1)] == Contents()[i]
    {
      Counts();
      AllSized();
      FlatSingle(Elements(), i);
      BytesIs(mask + 1, 1);
      if i < |Elements()| {
        Unread(i);
        ByteCell(Around(Slot(outs, mask + 1), i, mask + 1));
      }
    }

    /** __kfifo_poke_n */
    method PokeN(n: nat, recsize: nat)
      requires Fits() && esize == 1 && (recsize == 1 || recsize == 2) && recsize <= mask + 1 && Wraps(mask + 1)
      modifies data
      ensures Stored(Cells(data[..], mask + 1, 1), old(Cells(data[..], mask + 1, 1)), Slot(ins, mask + 1), Singles(Header(n, recsize)))
    {
      BytesIs(mask + 1, 1);
      ghost var d0 := data[..];
      data[Slot(ins, mask + 1)] := n % 256;
      if recsize > 1 {
        Shifted(ins, 1, mask + 1);
        data[Slot((ins + 1) % TWO32, mask + 1)] := n / 256 % 256;
      }
      Poked(d0, data[..], mask + 1, Slot(ins, mask + 1), Header(n, recsize));
    }

    /** __kfifo_in_r: a whole record, its length in front, or nothing. */
    method InR(buf: array<byte>, len: nat, recsize: nat) returns (n: nat)
      requires Valid() && esize == 1 && buf != data && len <= buf.Length && (recsize == 1 || recsize == 2)
      modifies `ins, `log, data
      ensures Valid()
      ensures if len + recsize <= mask + 1 - |old(Contents())| then
          n == len && Contents() == old(Contents()) + Header(len, recsize) + buf[..len]
        else n == 0 && Contents() == old(Contents()) && data[..] == old(data[..])
      ensures forall rs :: old(Contents()) == Encode(rs, recsize) ==>
        Contents() == Encode(if len + recsize <= mask + 1 - |old(Contents())| then rs + [buf[..len]] else rs, recsize)
    {
      var unused := Unused();
      UnreadByte(0);
      if len + recsize > unused {
        return 0;
      }
      ghost var c := Contents();
      StoreRecord(buf, len, recsize);
      n := len;
      forall rs | Encode(rs, recsize) == c
        ensures Contents() == Encode(rs + [buf[..len]], recsize)
      {
        EncodeMore(rs, buf[..len], recsize);
      }
    }

    // the length, and the bytes behind it
    method StoreRecord(buf: array<byte>, len: nat, recsize: nat)
      requires Valid() && esize == 1 && buf != data && len <= buf.Length && (recsize == 1 || recsize == 2)
      requires len + recsize <= mask + 1 - |Elements()|
      modifies `ins, `log, data
      ensures Valid() && Contents() == old(Contents()) + Header(len, recsize) + buf[..len]
    {
      Counts();
      ghost var d0 := data[..];
      Write(buf, len, recsize);
      RecordBytes(Contents(), Header(len, recsize), buf[..], len);
      Append(len + recsize, d0, Singles(Header(len, recsize)) + Cells(buf[..], len, 1));
    }

    method Write(buf: array<byte>, len: nat, recsize: nat)
      requires Fits() && esize == 1 && buf != data && len <= buf.Length && (recsize == 1 || recsize == 2)
      requires len + recsize <= mask + 1 && Wraps(mask + 1)
      modifies data
      ensures Stored(Cells(data[..], mask + 1, 1), old(Cells(data[..], mask + 1, 1)), Slot(ins, mask + 1),
                     Singles(Header(len, recsize)) + Cells(buf[..], len, 1))
    {
      BytesIs(len, 1);
      ghost var c0 := Cells(data[..], mask + 1, 1);
      PokeN(len, recsize);
      ghost var c1 := Cells(data[..], mask + 1, 1);
      Shifted(ins, recsize, mask + 1);
      CopyIn(buf, len, (ins + recsize) % TWO32);
      StoredTwice(Cells(data[..], mask + 1, 1), c1, c0, Slot(ins, mask + 1), Singles(Header(len, recsize)), Cells(buf[..], len, 1));
    }

    /** __kfifo_peek_n: the length of the record at the front. */
    method PeekN(recsize: nat) returns (n: nat)
      requires Valid() && esize == 1 && (recsize == 1 || recsize == 2) && recsize <= |Contents()|
      ensures n == StoredLen(Contents(), recsize)
    {
      UnreadByte(0);
      n := data[Slot(outs, mask + 1)];
      if recsize > 1 {
        UnreadByte(1);
        Counts();
        Shifted(outs, 1, mask + 1);
        n := n + 256 * (data[Slot((outs + 1) % TWO32, mask + 1)] as nat);
      }
    }

    /** __kfifo_out_peek_r: as much of the first record as fits; it stays in the fifo. */
    method OutPeekR(buf: array<byte>, len: nat, recsize: nat, ghost rs: seq<seq<byte>>) returns (n: nat)
      requires Valid() && esize == 1 && buf != data && len <= buf.Length && (recsize == 1 || recsize == 2)
      requires RecordsOk(rs, recsize) && Contents() == Encode(rs, recsize)
      modifies buf
      ensures Valid() && if rs == [] then n == 0 else n == Min(len, |rs[0]|) && buf[..n] == rs[0][..n]
    {
      Counts();
      UnreadByte(0);
      if ins == outs {
        Empty(rs, recsize);
        return 0;
      }
      var whole;
      n, whole := OutCopyR(buf, len, recsize, rs);
    }

    /** __kfifo_out_r: takes the first record, of which as much as fits is copied. */
    method OutR(buf: array<byte>, len: nat, recsize: nat, ghost rs: seq<seq<byte>>) returns (n: nat)
      requires Valid() && esize == 1 && buf != data && len <= buf.Length && (recsize == 1 || recsize == 2)
      requires RecordsOk(rs, recsize) && Contents() == Encode(rs, recsize)
      modifies `outs, `log, buf
      ensures Valid()
      ensures if rs == [] then n == 0 && Contents() == []
        else n == Min(len, |rs[0]|) && buf[..n] == rs[0][..n] && Contents() == Encode(rs[1..], recsize)
    {
      Counts();
      UnreadByte(0);
      if ins == outs {
        Empty(rs, recsize);
        return 0;
      }
      var whole;
      n, whole := OutCopyR(buf, len, recsize, rs);
      FirstRecord(rs, recsize);
      DropBytes(whole + recsize);
    }

    method DropBytes(n: nat)
      requires Valid() && esize == 1 && n <= |Contents()|
      modifies `outs, `log
      ensures Valid() && Contents() == old(Contents())[n..]
    {
      UnreadByte(0);
      BytesIs(n, 1);
      Drop(n);
    }

    /** __kfifo_skip_r */
    method SkipR(recsize: nat, ghost rs: seq<seq<byte>>)
      requires Valid() && esize == 1 && (recsize == 1 || recsize == 2)
      requires RecordsOk(rs, recsize) && Contents() == Encode(rs, recsize) && rs != []
      modifies `outs, `log
      ensures Valid() && Contents() == Encode(rs[1..], recsize)
    {
      FirstRecord(rs, recsize);
      var n := PeekN(recsize);
      DropBytes(n + recsize);
    }

    /** kfifo_out_copy_r */
    method OutCopyR(buf: array<byte>, len: nat, recsize: nat, ghost rs: seq<seq<byte>>) returns (n: nat, whole: nat)
      requires Valid() && esize == 1 && buf != data && len <= buf.Length && (recsize == 1 || recsize == 2)
      requires RecordsOk(rs, recsize) && Contents() == Encode(rs, recsize) && Contents() != []
      modifies buf
      ensures Valid() && rs != [] && whole == |rs[0]| && n == Min(len, whole) && buf[..n] == rs[0][..n]
    {
      FirstRecord(rs, recsize);
      whole := PeekN(recsize);
      n := Min(len, whole);
      CopyRecord(buf, n, recsize, rs[0]);
    }

    method CopyRecord(buf: array<byte>, n: nat, recsize: nat, ghost r: seq<byte>)
      requires Valid() && esize == 1 && buf != data && n <= buf.Length && n <= |r| && recsize + |r| <= |Contents()|
      requires Contents()[recsize..][..|r|] == r
      modifies buf
      ensures Valid() && buf[..n] == r[..n]
    {
      UnreadByte(0);
      Counts();
      Shifted(outs, recsize, mask + 1);
      BytesIs(n, 1);
      CopyOut(buf, n, (outs + recsize) % TWO32);
      forall i | 0 <= i < n
        ensures buf[i] == r[i]
      {
        RecordByte(recsize, r, i);
        SingleAt(buf[..], n, i);
      }
    }

    // the bytes behind the length
    lemma RecordByte(recsize: nat, r: seq<byte>, i: nat)
      requires Valid() && esize == 1 && recsize + |r| <= |Contents()| && i < |r|
      requires Contents()[recsize..][..|r|] == r
      ensures recsize + i < mask + 1
      ensures Cells(data[..], mask + 1, 1)[Around(Around(Slot(outs, mask + 1), recsize, mask + 1), i, mask + 1)] == [r[i]]
    {
      UnreadByte(recsize + i);
      AroundTwice(Slot(outs, mask + 1), recsize, i, mask + 1);
      ByteCell(Around(Slot(outs, mask + 1), recsize + i, mask + 1));
      assert Contents()[recsize..][..|r|][i] == r[i];
    }

    // the fifo with other bytes in its buffer
    ghost function Was(d: seq<byte>): P.Fifo<seq<byte>>
      requires Bytes(mask + 1, esize) <= |d|
      reads this
    {
      P.Fifo(mask + 1, Cells(d, mask + 1, esize), ins, outs, P.WIdle, P.RIdle)
    }
  }

  /** The largest power of two up to `n`: rounddown_pow_of_two. */
  function RoundDown(n: nat): (r: nat)
    requires n > 0
    ensures 0 < r <= n < 2 * r
  {
    if n == 1 then 1 else 2 * RoundDown(n / 2)
  }

  lemma {:induction false} RoundedDown(n: nat, k: nat)
    requires 0 < n < Pow2(k)
    ensures Pow2(k) % RoundDown(n) == 0
    decreases n
  {
    if n > 1 {
      RoundedDown(n / 2, k - 1);
      var r := RoundDown(n / 2);
      var q := Pow2(k - 1) / r;
      Associate(q, 2, r);
      assert Pow2(k) == q * (2 * r);
      ModMultiple(0, q, 2 * r);
    } else {
      ModMultiple(0, Pow2(k), 1);
    }
  }

  lemma {:induction false} NumberOfCells(length: nat, e: nat)
    requires e > 0 && 2 <= length / e && length < TWO32
    ensures var n := RoundDown(length / e); Bytes(n, e) <= length && 2 <= n <= 0x8000_0000 && TWO32 % n == 0
  {
    var q := length / e;
    assert q * e <= length;
    MulAtLeast(e, q);
    BytesIs(q, e);
    AllBits();
    RoundedDown(q, 32);
    HalfAtMost(RoundDown(q));
    BytesUpto(RoundDown(q), q, e);
  }

  lemma HalfAtMost(n: nat)
    requires 0 < n < TWO32 && TWO32 % n == 0
    ensures n <= 0x8000_0000
  {
    var q := TWO32 / n;
    assert TWO32 == q * n;
    if q >= 2 {
      MulAtLeast(q - 1, n);
      assert q * n == n + (q - 1) * n;
    }
  }

  lemma AllBits()
    ensures Pow2(32) == TWO32
  {
    Pow2Add(16, 16);
    Pow2Add(8, 8);
    assert Pow2(8) == 256;
  }

  // the sizes of the two parts of a copy, in bytes
  lemma ScaledMin(len: nat, size: nat, at: nat, e: nat)
    requires at < size && len <= size
    ensures var k := Min(len, size - at);
      && at * e == Bytes(at, e) && len * e == Bytes(len, e) && size * e == Bytes(size, e)
      && Bytes(k, e) == Min(len * e, size * e - at * e)
      && Bytes(at, e) + Bytes(k, e) <= Bytes(size, e) && Bytes(k, e) + Bytes(len - k, e) == Bytes(len, e)
  {
    BytesIs(at, e);
    BytesIs(len, e);
    BytesIs(size, e);
    BytesAdd(at, size - at, e);
    if len <= size - at {
      BytesUpto(len, size - at, e);
    } else {
      BytesUpto(size - at, len, e);
      BytesAdd(size - at, len - (size - at), e);
    }
  }

  /** The cell of an index: index & mask, since the number of cells is a power of two. The remainder has a name that
      proofs do not unfold. */
  function Slot(index: nat, size: nat): (r: nat)
    requires size > 0
    ensures r < size
  {
    SlotIs(index, size);
    SealedSlot(index, size, SEAL)
  }

  function SealedSlot(index: nat, size: nat, seal: nat): nat
    requires size > 0
    decreases seal, index
  {
    if seal == 0 then index % size else SealedSlot(index, size, seal - 1)
  }

  lemma SlotIs(index: nat, size: nat)
    requires size > 0
    ensures SealedSlot(index, size, SEAL) == index % size
  {
    assert SealedSlot(index, size, 1) == SealedSlot(index, size, 0);
    assert SealedSlot(index, size, 2) == SealedSlot(index, size, 1);
    assert SealedSlot(index, size, 3) == SealedSlot(index, size, 2);
  }

  // indices wrap around at 2^32 without moving a cell
  ghost predicate Wraps(size: nat) { SealedWraps(size, SEAL) }

  ghost predicate SealedWraps(size: nat, seal: nat)
    decreases seal, size
  {
    if seal == 0 then size > 0 && TWO32 % size == 0 else SealedWraps(size, seal - 1)
  }

  lemma WrapsIs(size: nat)
    ensures Wraps(size) <==> size > 0 && TWO32 % size == 0
  {
    assert SealedWraps(size, 1) == SealedWraps(size, 0);
    assert SealedWraps(size, 2) == SealedWraps(size, 1);
    assert SealedWraps(size, 3) == SealedWraps(size, 2);
  }

  // the cell `i` places after `at`, around the end of the buffer
  function Around(at: nat, i: nat, size: nat): (r: nat)
    requires at < size && i <= size
    ensures r < size || r == size == 0
  {
    if at + i < size then at + i else at + i - size
  }

  // `c` are the elements of `a` from `at` on
  ghost predicate Fetched<T>(c: seq<T>, a: seq<T>, at: nat) {
    at < |a| && |c| <= |a| && forall i :: 0 <= i < |c| ==> c[i] == a[Around(at, i, |a|)]
  }

  /** A copy in two parts, around the end of the buffer. */
  lemma {:induction false} CopiedAround(d: seq<byte>, size: nat, e: nat, at: nat, v: seq<byte>, len: nat)
    requires at < size && len <= size && Bytes(size, e) <= |d| && Bytes(len, e) <= |v|
    ensures var l := Min(len, size - at); var k, m := Bytes(l, e), Bytes(len - l, e);
      && Bytes(at, e) + k <= |d| && k + m == Bytes(len, e) && m <= |d|
      && Stored(Cells(Overwrite(Overwrite(d, Bytes(at, e), v[0..0 + k]), 0, v[k..k + m]), size, e),
                Cells(d, size, e), at, Cells(v, len, e))
  {
    var l := Min(len, size - at);
    ScaledMin(len, size, at, e);
    BytesUpto(len - l, size, e);
    var k, m := Bytes(l, e), Bytes(len - l, e);
    var d1 := Overwrite(d, Bytes(at, e), v[0..0 + k]);
    forall i | 0 <= i < size
      ensures Cells(Overwrite(d1, 0, v[k..k + m]), size, e)[Around(at, i, size)]
           == if i < len then Cells(v, len, e)[i] else Cells(d, size, e)[Around(at, i, size)]
    {
      TwoParts(d, size, e, at, v[0..0 + k], l, 0, v[k..k + m], len - l, Around(at, i, size));
      FirstOrSecond(v, len, e, l, i);
    }
  }

  /** ... and the same out of the buffer. */
  lemma {:induction false} CopiedBack(d: seq<byte>, size: nat, e: nat, at: nat, s: seq<byte>, len: nat)
    requires at < size && len <= size && Bytes(size, e) <= |d| && Bytes(len, e) <= |s|
    ensures var l := Min(len, size - at); var a, k, m := Bytes(at, e), Bytes(l, e), Bytes(len - l, e);
      && a + k <= |d| && m <= |d| && k + m == Bytes(len, e)
      && var s2 := Overwrite(Overwrite(s, 0, d[a..a + k]), k, d[0..0 + m]);
         Fetched(Cells(s2, len, e), Cells(d, size, e), at) && s2[Bytes(len, e)..] == s[Bytes(len, e)..]
  {
    var l := Min(len, size - at);
    ScaledMin(len, size, at, e);
    BytesUpto(len - l, size, e);
    var a, k, m := Bytes(at, e), Bytes(l, e), Bytes(len - l, e);
    var s1 := Overwrite(s, 0, d[a..a + k]);
    forall i | 0 <= i < len
      ensures Cells(Overwrite(s1, k, d[0..0 + m]), len, e)[i] == Cells(d, size, e)[Around(at, i, size)]
    {
      TwoParts(s, len, e, 0, d[a..a + k], l, l, d[0..0 + m], len - l, i);
      FirstOrRest(d, size, e, at, len, i);
    }
    BehindKept(s, d[a..a + k], d[0..0 + m]);
  }

  lemma BehindKept(s: seq<byte>, x: seq<byte>, y: seq<byte>)
    requires |x| + |y| <= |s|
    ensures Overwrite(Overwrite(s, 0, x), |x|, y)[|x| + |y|..] == s[|x| + |y|..]
  {
    OverwriteTwice(s, 0, x, y);
    OverwriteIs(s, 0, x + y);
  }

  lemma {:induction false} FirstOrRest(d: seq<byte>, size: nat, e: nat, at: nat, len: nat, i: nat)
    requires at < size && i < len <= size && Bytes(size, e) <= |d|
    ensures var l := Min(len, size - at); var a, k, m := Bytes(at, e), Bytes(l, e), Bytes(len - l, e);
      && a + k <= |d| && m <= |d|
      && Cells(d, size, e)[Around(at, i, size)] == if i < l then Cells(d[a..a + k], l, e)[i] else Cells(d[0..0 + m], len - l, e)[i - l]
  {
    var l := Min(len, size - at);
    CopyFits(size, e, at, l);
    BytesUpto(len - l, size, e);
    if i < l {
      PartCells(d, size, e, at, l, i);
    } else {
      PartCells(d, size, e, 0, len - l, i - l);
    }
  }

  // two copies to different places
  lemma {:induction false} TwoParts(d: seq<byte>, size: nat, e: nat, at: nat, s: seq<byte>, l: nat, at': nat, t: seq<byte>,
                                    l': nat, j: nat)
    requires Bytes(size, e) <= |d| && at + l <= size && at' + l' <= size && j < size
    requires |s| == Bytes(l, e) && |t| == Bytes(l', e) && (at + l <= at' || at' + l' <= at)
    ensures Bytes(at, e) + |s| <= |d| && Bytes(at', e) + |t| <= |d|
    ensures Cells(Overwrite(Overwrite(d, Bytes(at, e), s), Bytes(at', e), t), size, e)[j]
         == if at <= j < at + l then Cells(s, l, e)[j - at]
            else if at' <= j < at' + l' then Cells(t, l', e)[j - at']
            else Cells(d, size, e)[j]
  {
    CopiedCells(d, size, e, at, s, l, j);
    CopiedCells(Overwrite(d, Bytes(at, e), s), size, e, at', t, l', j);
  }

  lemma {:induction false} FirstOrSecond(v: seq<byte>, len: nat, e: nat, l: nat, i: nat)
    requires l <= len && Bytes(len, e) <= |v|
    ensures Bytes(l, e) + Bytes(len - l, e) == Bytes(len, e)
    ensures i < l ==> Cells(v[0..0 + Bytes(l, e)], l, e)[i] == Cells(v, len, e)[i]
    ensures l <= i < len ==>
      Cells(v[Bytes(l, e)..Bytes(l, e) + Bytes(len - l, e)], len - l, e)[i - l] == Cells(v, len, e)[i]
  {
    BytesAdd(l, len - l, e);
    if i < l {
      PartCells(v, len, e, 0, l, i);
    } else if i < len {
      PartCells(v, len, e, l, len - l, i - l);
    }
  }

  // elements of one byte
  function Singles(s: seq<byte>): (c: seq<seq<byte>>)
    ensures |c| == |s| && Sized(c, 1)
  {
    seq(|s|, i requires 0 <= i < |s| => [s[i]])
  }

  lemma FlatSingles(s: seq<byte>)
    ensures Flat(Singles(s)) == s
  {
    FlatSingle(Singles(s), 0);
    forall i | 0 <= i < |s|
      ensures Flat(Singles(s))[i] == s[i]
    {
      FlatSingle(Singles(s), i);
    }
  }

  lemma RecordBytes(c: seq<byte>, h: seq<byte>, s: seq<byte>, n: nat)
    requires n <= |s|
    ensures Bytes(n, 1) <= |s| && c + Flat(Singles(h) + Cells(s, n, 1)) == c + h + s[..n]
  {
    BytesIs(n, 1);
    FlatJoin(Singles(h), Cells(s, n, 1));
    FlatSingles(h);
    FlatCells(s, n, 1);
  }

  // bytes written one by one
  lemma {:induction false} Poked(d: seq<byte>, d': seq<byte>, size: nat, at: nat, h: seq<byte>)
    requires |d| == |d'| && size <= |d| && at < size && |h| <= size
    requires forall i :: 0 <= i < size ==> d'[Around(at, i, size)] == if i < |h| then h[i] else d[Around(at, i, size)]
    ensures Bytes(size, 1) <= |d| && Stored(Cells(d', size, 1), Cells(d, size, 1), at, Singles(h))
  {
    BytesIs(size, 1);
    forall i | 0 <= i < size
      ensures var j := Around(at, i, size);
        Cells(d', size, 1)[j] == if i < |h| then Singles(h)[i] else Cells(d, size, 1)[j]
    {
      SingleAt(d', size, Around(at, i, size));
      SingleAt(d, size, Around(at, i, size));
    }
  }

  lemma {:induction false} SingleAt(d: seq<byte>, n: nat, i: nat)
    requires i < n <= |d|
    ensures Bytes(n, 1) == n && Cells(d, n, 1)[i] == [d[i]]
  {
    BytesIs(n, 1);
    BytesIs(i, 1);
    CellAt(d, n, 1, i);
  }

  /** `a` differs from `b` in the cells from `at` on, which hold `v`. */
  ghost predicate Stored<T>(a: seq<T>, b: seq<T>, at: nat, v: seq<T>) {
    && |a| == |b| && at < |a| && |v| <= |a|
    && forall i :: 0 <= i < |a| ==> a[Around(at, i, |a|)] == if i < |v| then v[i] else b[Around(at, i, |a|)]
  }

  lemma AroundIs(k: nat, i: nat, size: nat)
    requires size > 0 && i <= size
    ensures Around(Slot(k, size), i, size) == Slot(k + i, size)
  {
    SlotIs(k, size);
    SlotIs(k + i, size);
    ModAdd(k, i, size);
    var x := k % size + i;
    DivModIs(x, size, if x < size then 0 else if x < 2 * size then 1 else 2, if x < size then x else if x < 2 * size then x - size else x - 2 * size);
  }

  /** The invariant of FifoProtocol, under a name that proofs do not unfold. */
  ghost predicate Consistent(s: P.Fifo<seq<byte>>, l: P.Log<seq<byte>>, seal: nat)
    decreases seal, l
  {
    if seal == 0 then P.Inv(s, l) else Consistent(s, l, seal - 1)
  }

  lemma ConsistentIs(s: P.Fifo<seq<byte>>, l: P.Log<seq<byte>>)
    ensures Consistent(s, l, SEAL) == P.Inv(s, l)
  {
    assert Consistent(s, l, 1) == Consistent(s, l, 0);
    assert Consistent(s, l, 2) == Consistent(s, l, 1);
    assert Consistent(s, l, 3) == Consistent(s, l, 2);
  }

  /** Elements stored behind the written ones become part of the contents, and no unread one is lost. */
  lemma StoredKeeps(s: P.Fifo<seq<byte>>, l: P.Log<seq<byte>>, s': P.Fifo<seq<byte>>, vals: seq<seq<byte>>)
    requires s.size > 0 && Consistent(s, l, SEAL) && |l.written| - l.consumed + |vals| <= s.size
    requires Stored(s'.data, s.data, Slot(s.ins, s.size), vals)
    requires s' == s.(data := s'.data, ins := (s.ins + |vals|) % TWO32) && s.writer == P.WIdle && s.reader == P.RIdle
    ensures Consistent(s', P.Log(l.written + vals, l.consumed), SEAL)
  {
    var w, n := |l.written|, |vals|;
    ConsistentIs(s, l);
    ConsistentIs(s', P.Log(l.written + vals, l.consumed));
    ModAdd(w, n, TWO32);
    forall k | l.consumed <= k < w + n
      ensures P.Holds(s', k, (l.written + vals)[k])
    {
      StoredCell(s.data, s'.data, w, vals, k, s.ins);
      assert k < w ==> P.Holds(s, k, l.written[k]);
    }
  }

  // element number `k` of all that were ever written, when `w` were written before `vals`
  lemma StoredCell(d: seq<seq<byte>>, d': seq<seq<byte>>, w: nat, vals: seq<seq<byte>>, k: nat, index: Word)
    requires |d| > 0 && TWO32 % |d| == 0 && index == w % TWO32 && Stored(d', d, Slot(index, |d|), vals)
    requires w + |vals| <= k + |d| && k < w + |vals|
    ensures d'[k % |d|] == if k < w then d[k % |d|] else vals[k - w]
  {
    var size := |d|;
    P.CellOf(w, size);
    SlotIs(w, size);
    SlotIs(index, size);
    SlotIs(k, size);
    if k < w {
      AroundIs(w, k + size - w, size);
      SlotIs(k + size, size);
      ModMultiple(k, 1, size);
    } else {
      AroundIs(w, k - w, size);
    }
  }

  /** The oldest elements are dropped. */
  lemma DropKeeps(s: P.Fifo<seq<byte>>, l: P.Log<seq<byte>>, n: nat)
    requires Consistent(s, l, SEAL) && l.consumed + n <= |l.written| && s.writer == P.WIdle && s.reader == P.RIdle
    ensures Consistent(s.(outs := (s.outs + n) % TWO32), l.(consumed := l.consumed + n), SEAL)
  {
    var s', l' := s.(outs := (s.outs + n) % TWO32), l.(consumed := l.consumed + n);
    ConsistentIs(s, l);
    ConsistentIs(s', l');
    ModAdd(l.consumed, n, TWO32);
    P.Carried(s, s', l);
  }

  lemma Shifted(index: Word, i: nat, size: nat)
    requires 0 < size && i <= size && Wraps(size)
    ensures Slot((index + i) % TWO32, size) == Around(Slot(index, size), i, size)
  {
    WrapsIs(size);
    SlotIs((index + i) % TWO32, size);
    SlotIs(index + i, size);
    P.CellOf(index + i, size);
    AroundIs(index, i, size);
  }

  lemma AroundTwice(at: nat, i: nat, j: nat, size: nat)
    requires at < size && i + j <= size
    ensures Around(Around(at, i, size), j, size) == Around(at, i + j, size)
  {
  }

  lemma StoredTwice<T>(d2: seq<T>, d1: seq<T>, d0: seq<T>, at: nat, h: seq<T>, v: seq<T>)
    requires Stored(d1, d0, at, h) && |h| + |v| <= |d0| && Stored(d2, d1, Around(at, |h|, |d0|), v)
    ensures Stored(d2, d0, at, h + v)
  {
    var size, mid := |d0|, Around(at, |h|, |d0|);
    forall i | 0 <= i < size
      ensures d2[Around(at, i, size)] == if i < |h + v| then (h + v)[i] else d0[Around(at, i, size)]
    {
      if i >= |h| {
        AroundTwice(at, |h|, i - |h|, size);
        assert Around(mid, i - |h|, size) == Around(at, i, size);
      } else {
        var j := i + size - |h|;
        assert Around(mid, j, size) == Around(at, i, size);
      }
    }
  }
}
