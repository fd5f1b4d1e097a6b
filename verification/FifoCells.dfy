/** Bytes as elements of a fixed size: what kfifo_copy_in and kfifo_copy_out of compat/kfifo.c move by memcpy. */
module FifoCells {
  import opened Arithmetic
  import opened Common
  import opened Words
  import opened Memory

  /** The size of `n` elements of `e` bytes each: a product under a name that proofs do not unfold. */
  function Bytes(n: nat, e: nat): nat { SealedBytes(n, e, SEAL) }

  function SealedBytes(n: nat, e: nat, seal: nat): nat
    decreases seal, n
  {
    if seal == 0 then n * e else SealedBytes(n, e, seal - 1)
  }

  lemma BytesIs(n: nat, e: nat)
    ensures Bytes(n, e) == n * e
  {
    assert SealedBytes(n, e, 1) == SealedBytes(n, e, 0);
    assert SealedBytes(n, e, 2) == SealedBytes(n, e, 1);
    assert SealedBytes(n, e, 3) == SealedBytes(n, e, 2);
  }

  lemma BytesAdd(m: nat, n: nat, e: nat)
    ensures Bytes(m + n, e) == Bytes(m, e) + Bytes(n, e)
  {
    BytesIs(m, e);
    BytesIs(n, e);
    BytesIs(m + n, e);
    Distribute(m, n, e);
  }

  lemma BytesUpto(m: nat, n: nat, e: nat)
    requires m <= n
    ensures Bytes(m, e) <= Bytes(n, e) && (m < n ==> Bytes(m, e) + e <= Bytes(n, e))
  {
    BytesAdd(m, n - m, e);
    BytesIs(n - m, e);
    MulAtLeast(n - m, e);
  }

  lemma OneMore(n: nat, e: nat)
    ensures Bytes(0, e) == 0 && Bytes(n + 1, e) == Bytes(n, e) + e
  {
    BytesIs(0, e);
    BytesIs(1, e);
    BytesAdd(n, 1, e);
  }

  function Cell(s: seq<byte>, e: nat, i: nat): seq<byte> {
    if Bytes(i, e) + e <= |s| then s[Bytes(i, e)..Bytes(i, e) + e] else []
  }

  /** The first `n` elements of `e` bytes each; what they are is in CellAt. */
  function Cells(s: seq<byte>, n: nat, e: nat): (r: seq<seq<byte>>)
    ensures |r| == n
  {
    SealedCells(s, n, e, SEAL)
  }

  function SealedCells(s: seq<byte>, n: nat, e: nat, seal: nat): (r: seq<seq<byte>>)
    ensures |r| == n
    decreases seal, n
  {
    if seal == 0 then seq(n, i requires 0 <= i < n => Cell(s, e, i)) else SealedCells(s, n, e, seal - 1)
  }

  lemma CellAt(s: seq<byte>, n: nat, e: nat, i: nat)
    requires i < n && Bytes(n, e) <= |s|
    ensures Bytes(i, e) + e <= Bytes(n, e) && Cells(s, n, e)[i] == s[Bytes(i, e)..Bytes(i, e) + e]
  {
    BytesUpto(i, n, e);
    CellsIs(s, n, e);
  }

  lemma CellsIs(s: seq<byte>, n: nat, e: nat)
    ensures forall i :: 0 <= i < n ==> Cells(s, n, e)[i] == Cell(s, e, i)
  {
    assert SealedCells(s, n, e, 1) == SealedCells(s, n, e, 0);
    assert SealedCells(s, n, e, 2) == SealedCells(s, n, e, 1);
    assert SealedCells(s, n, e, 3) == SealedCells(s, n, e, 2);
  }

  function Flat(c: seq<seq<byte>>): seq<byte> { if c == [] then [] else Flat(c[..|c| - 1]) + c[|c| - 1] }

  lemma {:induction false} FlatCells(s: seq<byte>, n: nat, e: nat)
    requires Bytes(n, e) <= |s|
    ensures Flat(Cells(s, n, e)) == s[..Bytes(n, e)]
    decreases n
  {
    if n == 0 {
      OneMore(0, e);
    } else {
      OneMore(n - 1, e);
      FlatCells(s, n - 1, e);
      CellAt(s, n, e, n - 1);
      CellsIs(s, n, e);
      CellsIs(s, n - 1, e);
      assert Cells(s, n, e)[..n - 1] == Cells(s, n - 1, e);
      assert s[..Bytes(n, e)] == s[..Bytes(n - 1, e)] + s[Bytes(n - 1, e)..Bytes(n, e)];
    }
  }

  lemma {:induction false} FlatJoin(c: seq<seq<byte>>, d: seq<seq<byte>>)
    ensures Flat(c + d) == Flat(c) + Flat(d)
    decreases |d|
  {
    if d == [] {
      assert c + d == c;
    } else {
      var n := |d| - 1;
      FlatJoin(c, d[..n]);
      assert (c + d)[..|c + d| - 1] == c + d[..n];
      assert Flat(c) + (Flat(d[..n]) + d[n]) == Flat(c) + Flat(d[..n]) + d[n];
    }
  }

  predicate Sized(c: seq<seq<byte>>, e: nat) { forall i :: 0 <= i < |c| ==> |c[i]| == e }

  lemma {:induction false} FlatSized(c: seq<seq<byte>>, e: nat)
    requires Sized(c, e)
    ensures |Flat(c)| == Bytes(|c|, e)
    decreases |c|
  {
    OneMore(0, e);
    if c != [] {
      OneMore(|c| - 1, e);
      FlatSized(c[..|c| - 1], e);
    }
  }

  /** The first elements as bytes, and the others. */
  lemma FlatParts(c: seq<seq<byte>>, n: nat, e: nat)
    requires n <= |c| && Sized(c, e)
    ensures |Flat(c)| == Bytes(|c|, e) && Bytes(n, e) <= Bytes(|c|, e)
    ensures Flat(c)[..Bytes(n, e)] == Flat(c[..n]) && Flat(c)[Bytes(n, e)..] == Flat(c[n..])
  {
    FlatJoin(c[..n], c[n..]);
    assert c[..n] + c[n..] == c;
    FlatSized(c, e);
    FlatSized(c[..n], e);
    FlatSized(c[n..], e);
  }

  /** Elements of one byte. */
  lemma {:induction false} FlatSingle(c: seq<seq<byte>>, i: nat)
    requires Sized(c, 1)
    ensures |Flat(c)| == |c| && (i < |c| ==> c[i] == [Flat(c)[i]])
    decreases |c|
  {
    if c != [] {
      FlatSingle(c[..|c| - 1], i);
    }
  }

  // a part of what is written, or of what is not
  lemma OverwriteSlice(d: seq<byte>, a: nat, t: seq<byte>, x: nat, e: nat)
    requires a + |t| <= |d| && x + e <= |d|
    ensures var d' := Overwrite(d, a, t);
      && (a <= x && x + e <= a + |t| ==> d'[x..x + e] == t[x - a..x - a + e])
      && (x + e <= a || a + |t| <= x ==> d'[x..x + e] == d[x..x + e])
  {
    var u := Overwrite(d, a, t)[x..x + e];
    assert |u| == e;
    forall k | 0 <= k < e
      ensures u[k] == if a <= x + k < a + |t| then t[x + k - a] else d[x + k]
    {
      OverwriteAt(d, a, t, x + k);
    }
  }

  lemma SliceOfSlice(s: seq<byte>, lo: nat, len: nat, x: nat, e: nat)
    requires lo + len <= |s| && x + e <= len
    ensures s[lo..lo + len][x..x + e] == s[lo + x..lo + x + e]
  {
    var u, v := s[lo..lo + len][x..x + e], s[lo + x..lo + x + e];
    assert |u| == |v|;
    assert forall k :: 0 <= k < e ==> u[k] == v[k];
  }

  /** memcpy of the `n` elements of `t` to the places from `at` on. */
  lemma {:induction false} CopiedCells(d: seq<byte>, size: nat, e: nat, at: nat, t: seq<byte>, n: nat, i: nat)
    requires Bytes(size, e) <= |d| && at + n <= size && i < size && |t| == Bytes(n, e)
    ensures Bytes(at, e) + |t| <= Bytes(size, e)
    ensures Cells(Overwrite(d, Bytes(at, e), t), size, e)[i]
         == if at <= i < at + n then Cells(t, n, e)[i - at] else Cells(d, size, e)[i]
  {
    CopyFits(size, e, at, n);
    var a, x := Bytes(at, e), Bytes(i, e);
    CellAt(Overwrite(d, a, t), size, e, i);
    CellAt(d, size, e, i);
    OverwriteSlice(d, a, t, x, e);
    CopyPlaces(e, at, n, i);
    if at <= i < at + n {
      CellAt(t, n, e, i - at);
    }
  }

  lemma {:induction false} CopyFits(size: nat, e: nat, at: nat, n: nat)
    requires at + n <= size
    ensures Bytes(at, e) + Bytes(n, e) <= Bytes(size, e)
  {
    BytesAdd(at, n, e);
    BytesUpto(at + n, size, e);
  }

  // before, among or behind the places from `at` on
  lemma {:induction false} CopyPlaces(e: nat, at: nat, n: nat, i: nat)
    ensures var a, x := Bytes(at, e), Bytes(i, e);
      if i < at then x + e <= a
      else if i < at + n then x == a + Bytes(i - at, e) && x + e <= a + Bytes(n, e)
      else a + Bytes(n, e) <= x
  {
    if i < at {
      BytesUpto(i, at, e);
    } else if i < at + n {
      BytesAdd(at, i - at, e);
      BytesUpto(i - at, n, e);
    } else {
      CopyFits(i, e, at, n);
    }
  }

  /** The elements of a part. */
  lemma {:induction false} PartCells(s: seq<byte>, m: nat, e: nat, k: nat, n: nat, i: nat)
    requires Bytes(m, e) <= |s| && k + n <= m && i < n
    ensures Bytes(k, e) + Bytes(n, e) <= Bytes(m, e)
    ensures Cells(s[Bytes(k, e)..Bytes(k, e) + Bytes(n, e)], n, e)[i] == Cells(s, m, e)[k + i]
  {
    CopyFits(m, e, k, n);
    CopyPlaces(e, k, n, k + i);
    var lo, len := Bytes(k, e), Bytes(n, e);
    CellAt(s, m, e, k + i);
    CellAt(s[lo..lo + len], n, e, i);
    SliceOfSlice(s, lo, len, Bytes(i, e), e);
  }
}
