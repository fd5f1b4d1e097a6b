/**
 What a beginning of an LZMA2 stream is good for: the steps of the machine of Lzma2Model that the bytes so far
 determine.  More bytes never change what came of fewer.
 */
module Lzma2Prefix {
  import opened Common
  import opened Words
  import opened LzmaModel
  import opened Lzma2Model

  // ---- the steps that are determined

  lemma StepOnward(size: nat, s: seq<byte>, st: Lzma2)
    requires Lzma2Ok(size, st) && Determined(size, s, st)
    ensures st.m.d.pos <= |s| ==> Step(size, s, st).m.d.pos <= |s|
    ensures Left(s, Step(size, s, st)) < Left(s, st)
            || (Left(s, Step(size, s, st)) == Left(s, st) && Rank(Step(size, s, st)) < Rank(st))
  {
    StepIs(size, s, st);
    StepGrows(size, s, st);
    if st.place.LzmaRun? && st.place.togo > 0 {
      RoundReads(Config(st.props, size), st.m, s);
      if st.m.d.pos + st.place.c <= |s| {
        assert Upto(s, st.m.d.pos + st.place.c) == s[..st.m.d.pos + st.place.c];
      }
    }
  }

  function Left(s: seq<byte>, st: Lzma2): nat {
    if st.m.d.pos < |s| then |s| - st.m.d.pos else 0
  }

  function Rank(st: Lzma2): nat {
    if Stopped(st) then 0 else if !st.place.LzmaRun? then 1 else if st.place.togo > 0 then st.place.togo + 2 else 2
  }

  /** As far as the bytes of `s` go. */
  function Go(size: nat, s: seq<byte>, st: Lzma2): (r: Lzma2)
    requires Lzma2Ok(size, st)
    ensures Lzma2Ok(size, r)
    decreases Left(s, st), Rank(st)
  {
    if Determined(size, s, st) then
      StepOnward(size, s, st);
      Go(size, s, Step(size, s, st))
    else st
  }

  lemma {:induction false} GoExtends(size: nat, s: seq<byte>, t: seq<byte>, st: Lzma2)
    requires Lzma2Ok(size, st) && s <= t && st.m.d.pos <= |s|
    ensures Go(size, t, st) == Go(size, t, Go(size, s, st)) && Go(size, s, st).m.d.pos <= |s|
    decreases Left(s, st), Rank(st)
  {
    if Determined(size, s, st) {
      StepOnward(size, s, st);
      StepSame(size, s, t, st);
      StepOnward(size, t, st);
      GoExtends(size, s, t, Step(size, s, st));
    }
  }

  lemma {:induction false} GoGrows(size: nat, s: seq<byte>, st: Lzma2)
    requires Lzma2Ok(size, st)
    ensures Produced(st) <= Produced(Go(size, s, st))
    decreases Left(s, st), Rank(st)
  {
    if Determined(size, s, st) {
      StepOnward(size, s, st);
      StepGrows(size, s, st);
      GoGrows(size, s, Step(size, s, st));
    }
  }

  /** It is the way that the machine takes on any longer stream. */
  lemma {:induction false} GoOnPath(size: nat, s: seq<byte>, t: seq<byte>, st: Lzma2) returns (n: nat)
    requires Lzma2Ok(size, st) && s <= t && st.m.d.pos <= |s|
    ensures Iter(size, t, st, n) == Go(size, s, st)
    decreases Left(s, st), Rank(st)
  {
    n := 0;
    if Determined(size, s, st) {
      StepOnward(size, s, st);
      StepSame(size, s, t, st);
      n := GoOnPath(size, s, t, Step(size, s, st));
      n := n + 1;
    }
  }

  /** ... step by step the same on two streams that begin alike. */
  lemma {:induction false} GoTogether(size: nat, s: seq<byte>, t: seq<byte>, t': seq<byte>, st: Lzma2) returns (n: nat)
    requires Lzma2Ok(size, st) && s <= t && s <= t' && st.m.d.pos <= |s|
    ensures Iter(size, t, st, n) == Go(size, s, st)
    ensures forall j: nat :: j <= n ==> Iter(size, t', st, j) == Iter(size, t, st, j)
    decreases Left(s, st), Rank(st)
  {
    n := 0;
    if Determined(size, s, st) {
      StepOnward(size, s, st);
      StepSame(size, s, t, st);
      StepSame(size, s, t', st);
      n := GoTogether(size, s, t, t', Step(size, s, st));
      n := n + 1;
      forall j: nat | j <= n
        ensures Iter(size, t', st, j) == Iter(size, t, st, j)
      {
        if j > 0 {
          assert Iter(size, t', Step(size, s, st), j - 1) == Iter(size, t, Step(size, s, st), j - 1);
        }
      }
    }
  }

  /** Where the bytes so far do not tell how to go on, the machine stays, reads more, or fails. */
  lemma {:induction false} Beyond(size: nat, stream: seq<byte>, avail: nat, r: Lzma2, k: nat)
    requires Lzma2Ok(size, r) && r.m.d.pos <= avail <= |stream| && !Stopped(r) && !Determined(size, stream[..avail], r)
    ensures var q := Iter(size, stream, r, k);
      q == r || q.m.d.pos > avail || (q.place.Failed? && Produced(q) == Produced(r))
    decreases k
  {
    if k > 0 {
      var q := Step(size, stream, r);
      StepBeyond(size, stream, avail, r);
      if q == r {
        Beyond(size, stream, avail, r, k - 1);
      } else if q.m.d.pos > avail {
        IterGrows(size, stream, q, k - 1);
      } else {
        IterStopped(size, stream, q, k - 1);
      }
    }
  }

  lemma StepBeyond(size: nat, stream: seq<byte>, avail: nat, r: Lzma2)
    requires Lzma2Ok(size, r) && r.m.d.pos <= avail <= |stream| && !Stopped(r) && !Determined(size, stream[..avail], r)
    ensures var q := Step(size, stream, r);
      q == r || q.m.d.pos > avail || (q.place.Failed? && Produced(q) == Produced(r))
  {
    StepIs(size, stream, r);
    if r.place.LzmaRun? {
      SymbolBeyond(stream, avail, Config(r.props, size), r);
    }
  }

  lemma SymbolBeyond(stream: seq<byte>, avail: nat, c: Config, r: Lzma2)
    requires MachineOk(c, r.m) && r.m.d.pos <= avail <= |stream| && r.place.LzmaRun? && r.m.d.pos + r.place.c > avail
    requires ReadTo(c, r.m, stream[..avail]) > avail
    ensures var q := Round(c, r.m, Upto(stream, r.m.d.pos + r.place.c)); q.Some? ==> q.value.d.pos > avail
  {
    var x := Upto(stream, r.m.d.pos + r.place.c);
    RoundReads(c, r.m, x);
    if ReadTo(c, r.m, x) <= avail {
      assert MovedMachine(r.m, 0) == r.m;
      RoundSame(c, r.m, x, stream[..avail], 0, avail);
    }
  }

  // ---- the stream as a whole

  datatype Progress = Waits | Done | Bad

  /** What `s` decodes to so far, and whether that is all. */
  function Decoded(size: nat, s: seq<byte>): (seq<byte>, Progress) {
    var r := Go(size, s, Start());
    (Produced(r), if r.place.Finished? then Done else if r.place.Failed? then Bad else Waits)
  }

  /** More bytes take nothing back. */
  lemma DecodedGrows(size: nat, s: seq<byte>, t: seq<byte>)
    requires s <= t
    ensures Decoded(size, s).0 <= Decoded(size, t).0
    ensures Decoded(size, s).1 != Waits ==> Decoded(size, t) == Decoded(size, s)
  {
    GoExtends(size, s, t, Start());
    GoGrows(size, t, Go(size, s, Start()));
  }

  /** The machine at the end of what `avail` bytes determine, and on its way through the stream. */
  lemma Frontier(size: nat, stream: seq<byte>, avail: nat) returns (r: Lzma2, n: nat)
    requires avail <= |stream|
    ensures r == Go(size, stream[..avail], Start()) && Lzma2Ok(size, r) && Iter(size, stream, Start(), n) == r
    ensures r.m.d.pos <= avail && !Determined(size, stream[..avail], r)
  {
    r := Go(size, stream[..avail], Start());
    n := GoOnPath(size, stream[..avail], stream, Start());
    GoExtends(size, stream[..avail], stream[..avail], Start());
    GoStands(size, stream[..avail], Start());
  }

  /** What the machine has produced within the first bytes is what they decode to, or less. */
  lemma ProducedWithin(size: nat, stream: seq<byte>, avail: nat, k: nat, s: Lzma2)
    requires Path(size, stream, Start(), k, s, SEAL) && s.m.d.pos <= avail <= |stream|
    ensures Produced(s) <= Decoded(size, stream[..avail]).0
  {
    var r, n := Frontier(size, stream, avail);
    PathIs(size, stream, Start(), k, s);
    Apart(size, stream, avail, n, r, k);
  }

  /** A later point on the way is no further, or reads more, or has failed. */
  lemma Apart(size: nat, stream: seq<byte>, avail: nat, n: nat, r: Lzma2, k: nat)
    requires Lzma2Ok(size, r) && Iter(size, stream, Start(), n) == r && r.m.d.pos <= avail <= |stream|
    requires !Determined(size, stream[..avail], r)
    ensures var q := Iter(size, stream, Start(), k);
      || Produced(q) <= Produced(r) || q.m.d.pos > avail
    ensures var q := Iter(size, stream, Start(), k);
      k > n ==> q == r || q.m.d.pos > avail || (q.place.Failed? && Produced(q) == Produced(r))
  {
    if k <= n {
      IterAdd(size, stream, Start(), k, n - k);
      IterGrows(size, stream, Iter(size, stream, Start(), k), n - k);
    } else {
      IterAdd(size, stream, Start(), n, k - n);
      if Stopped(r) {
        IterStopped(size, stream, r, k - n);
      } else {
        Beyond(size, stream, avail, r, k - n);
      }
    }
  }

  /** A point that the machine has reached by reading only the first bytes is reached on any stream that begins
      with them. */
  lemma SameStart(size: nat, stream: seq<byte>, stream': seq<byte>, t: nat, k: nat, s: Lzma2) returns (n: nat)
    requires t <= |stream| && t <= |stream'| && stream[..t] == stream'[..t]
    requires Path(size, stream, Start(), k, s, SEAL) && s.m.d.pos <= t && !Stopped(s)
    ensures Path(size, stream', Start(), n, s, SEAL)
  {
    var r, i := Frontier(size, stream, t);
    n := GoTogether(size, stream[..t], stream, stream', Start());
    PathIs(size, stream, Start(), k, s);
    if k <= n {
      n := k;
    } else {
      Apart(size, stream, t, n, r, k);
      assert Iter(size, stream', Start(), n) == r;
    }
    PathIs(size, stream', Start(), n, s);
  }

  /** A stream that ends after `pos` bytes: they decode to its output, and any beginning of them waits. */
  lemma DecodedStream(size: nat, stream: seq<byte>, k: nat, out: seq<byte>, pos: nat)
    requires Ends(size, stream, Start(), k, out, pos) && pos <= |stream|
    ensures Decoded(size, stream[..pos]) == (out, Done)
    ensures forall j :: 0 <= j < pos ==> Decoded(size, stream[..j]).1 == Waits
  {
    forall j | 0 <= j <= pos
      ensures if j < pos then Decoded(size, stream[..j]).1 == Waits else Decoded(size, stream[..j]) == (out, Done)
    {
      BeginningOf(size, stream, k, out, pos, j);
    }
  }

  lemma BeginningOf(size: nat, stream: seq<byte>, k: nat, out: seq<byte>, pos: nat, j: nat)
    requires Ends(size, stream, Start(), k, out, pos) && j <= pos <= |stream|
    ensures if j < pos then Decoded(size, stream[..j]).1 == Waits else Decoded(size, stream[..j]) == (out, Done)
  {
    var r, n := Frontier(size, stream, j);
    Later(size, stream, Start(), n, k);
    if j == pos {
      Apart(size, stream, j, n, r, k);
      if k <= n {
        Later(size, stream, Start(), k, n);
        IterAdd(size, stream, Start(), k, n - k);
        IterStopped(size, stream, Iter(size, stream, Start(), k), n - k);
      }
    }
  }

  /** A failure that can be seen in the first bytes is one of theirs. */
  lemma BadWithin(size: nat, stream: seq<byte>, avail: nat, k: nat, out: seq<byte>)
    requires avail <= |stream| && FailsWith(size, stream, avail, Start(), k, out, SEAL)
    ensures Decoded(size, stream[..avail]).1 == Bad && out <= Decoded(size, stream[..avail]).0
  {
    FailsWithIs(size, stream, avail, Start(), k, out);
    var r, n := Frontier(size, stream, avail);
    if k <= n {
      IterAdd(size, stream, Start(), k, n - k);
      IterStopped(size, stream, Iter(size, stream, Start(), k), n - k);
    } else {
      Apart(size, stream, avail, n, r, k - 1);
    }
  }

  lemma {:induction false} GoStands(size: nat, s: seq<byte>, st: Lzma2)
    requires Lzma2Ok(size, st)
    ensures !Determined(size, s, Go(size, s, st))
    decreases Left(s, st), Rank(st)
  {
    if Determined(size, s, st) {
      StepOnward(size, s, st);
      GoStands(size, s, Step(size, s, st));
    }
  }
}
