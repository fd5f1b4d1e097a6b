/** memcpy, and what it does to a buffer. */
module Memory {
  import opened Words

  function Min(x: nat, y: nat): nat { if x <= y then x else y }

  /** `a` with `s` written over it from `at` on. */
  function Overwrite(a: seq<byte>, at: nat, s: seq<byte>): (r: seq<byte>)
    requires at + |s| <= |a|
    ensures |r| == |a|
    decreases s
  {
    if s == [] then a else Overwrite(a[at := s[0]], at + 1, s[1..])
  }

  lemma {:induction false} OverwriteIs(a: seq<byte>, at: nat, s: seq<byte>)
    requires at + |s| <= |a|
    ensures Overwrite(a, at, s) == a[..at] + s + a[at + |s|..]
    decreases s
  {
    if s != [] {
      OverwriteIs(a[at := s[0]], at + 1, s[1..]);
    }
  }

  lemma OverwriteAt(a: seq<byte>, at: nat, s: seq<byte>, i: nat)
    requires at + |s| <= |a| && i < |a|
    ensures Overwrite(a, at, s)[i] == if at <= i < at + |s| then s[i - at] else a[i]
  {
    OverwriteIs(a, at, s);
  }

  lemma OverwriteTwice(a: seq<byte>, at: nat, s: seq<byte>, t: seq<byte>)
    requires at + |s| + |t| <= |a|
    ensures Overwrite(Overwrite(a, at, s), at + |s|, t) == Overwrite(a, at, s + t)
  {
    OverwriteIs(a, at, s);
    OverwriteIs(a, at, s + t);
    OverwriteIs(Overwrite(a, at, s), at + |s|, t);
  }

  lemma OverwriteSame(a: seq<byte>, at: nat, s: seq<byte>)
    requires at + |s| <= |a| && a[at..at + |s|] == s
    ensures Overwrite(a, at, s) == a
  {
    OverwriteIs(a, at, s);
  }

  /** `c` is `a` with `s` written to the output space from `at` to `end`. Bytes behind `s` may have changed too,
      but none outside the space. */
  predicate Written(a: seq<byte>, at: nat, s: seq<byte>, c: seq<byte>, end: nat) {
    && at + |s| <= end <= |a| == |c|
    && c[..at + |s|] == a[..at] + s && c[end..] == a[end..]
  }

  lemma OverwriteWritten(a: seq<byte>, at: nat, s: seq<byte>, end: nat)
    requires at + |s| <= end <= |a|
    ensures Written(a, at, s, Overwrite(a, at, s), end)
  {
    OverwriteIs(a, at, s);
  }

  lemma WrittenTwice(a: seq<byte>, at: nat, s: seq<byte>, b: seq<byte>, t: seq<byte>, c: seq<byte>, end: nat)
    requires Written(a, at, s, b, end) && Written(b, at + |s|, t, c, end)
    ensures Written(a, at, s + t, c, end)
  {
  }

  lemma WrittenWhere(a: seq<byte>, at: nat, s: seq<byte>, c: seq<byte>, end: nat)
    requires Written(a, at, s, c, end)
    ensures c[at..at + |s|] == s && c[..at] == a[..at] && c[end..] == a[end..]
  {
    assert c[..at] == c[..at + |s|][..at];
    assert c[at..at + |s|] == c[..at + |s|][at..];
  }

  /** memcpy */
  method MemCopy(src: array<byte>, from: nat, dst: array<byte>, at: nat, n: nat)
    requires src != dst && from + n <= src.Length && at + n <= dst.Length
    modifies dst
    ensures dst[..] == Overwrite(old(dst[..]), at, src[..][from..from + n])
  {
    OverwriteIs(dst[..], at, src[..][from..from + n]);
    ghost var t := src[..][from..from + n];
    ghost var s := dst[..at] + t + dst[at + n..];
    forall i | 0 <= i < n {
      dst[at + i] := src[from + i];
    }
    assert dst[..] == s && src[..][from..from + n] == t;
  }
}
