/**
 The record mode of compat/kfifo.c under the interleavings of FifoProtocol: the writer publishes a record with its
 length in front, or nothing; the reader takes as many bytes as the length it has read says.
 */
module FifoRecords {
  import opened Common
  import opened Words
  import opened FifoProtocol

  // ---- records as bytes

  // the length of a record as it is stored in front of it, low byte first
  function Header(n: nat, recsize: nat): (h: seq<byte>)
    requires recsize == 1 || recsize == 2
    ensures |h| == recsize
  {
    if recsize == 1 then [n % 256] else [n % 256, n / 256 % 256]
  }

  // the largest length that fits in front of a record
  function MaxRecord(recsize: nat): nat
    requires recsize == 1 || recsize == 2
  {
    if recsize == 1 then 255 else 65535
  }

  ghost predicate RecordsOk(rs: seq<seq<byte>>, recsize: nat)
    requires recsize == 1 || recsize == 2
  {
    forall i :: 0 <= i < |rs| ==> |rs[i]| <= MaxRecord(recsize)
  }

  function Encode(rs: seq<seq<byte>>, recsize: nat): seq<byte>
    requires recsize == 1 || recsize == 2
  {
    if rs == [] then [] else Header(|rs[0]|, recsize) + rs[0] + Encode(rs[1..], recsize)
  }

  function StoredLen(c: seq<byte>, recsize: nat): nat
    requires (recsize == 1 || recsize == 2) && recsize <= |c|
  {
    if recsize == 1 then c[0] else c[0] + 256 * (c[1] as nat)
  }

  /** A record comes back with its own length exactly if that fits into the length field: __kfifo_in_r does
      not check it. */
  lemma LengthComesBack(n: nat, recsize: nat)
    requires recsize == 1 || recsize == 2
    ensures StoredLen(Header(n, recsize), recsize) == n <==> n <= MaxRecord(recsize)
  {
    assert n / 256 < 256 <==> n < 65536;
  }

  lemma FirstRecord(rs: seq<seq<byte>>, recsize: nat)
    requires (recsize == 1 || recsize == 2) && RecordsOk(rs, recsize) && Encode(rs, recsize) != []
    ensures rs != []
    ensures var c, n := Encode(rs, recsize), |rs[0]|;
      && recsize + n <= |c| && StoredLen(c, recsize) == n && c[recsize..][..n] == rs[0]
      && c[recsize + n..] == Encode(rs[1..], recsize)
  {
    LengthComesBack(|rs[0]|, recsize);
    ThreeParts(Header(|rs[0]|, recsize), rs[0], Encode(rs[1..], recsize));
  }

  lemma ThreeParts(a: seq<byte>, b: seq<byte>, c: seq<byte>)
    ensures var s := a + b + c; s[..|a|] == a && s[|a|..][..|b|] == b && s[|a| + |b|..] == c
  {
  }

  lemma Empty(rs: seq<seq<byte>>, recsize: nat)
    requires (recsize == 1 || recsize == 2) && Encode(rs, recsize) == []
    ensures rs == []
  {
  }

  /** Appending a record to the queue of records. */
  lemma {:induction false} EncodeMore(rs: seq<seq<byte>>, r: seq<byte>, recsize: nat)
    requires recsize == 1 || recsize == 2
    ensures Encode(rs + [r], recsize) == Encode(rs, recsize) + Header(|r|, recsize) + r
    decreases rs
  {
    if rs == [] {
      assert [r][1..] == [];
    } else {
      assert (rs + [r])[1..] == rs[1..] + [r];
      EncodeMore(rs[1..], r, recsize);
    }
  }

  lemma {:induction false} EncodeSplit(rs: seq<seq<byte>>, k: nat, recsize: nat)
    requires (recsize == 1 || recsize == 2) && k <= |rs|
    ensures Encode(rs, recsize) == Encode(rs[..k], recsize) + Encode(rs[k..], recsize)
    decreases k
  {
    if k == 0 {
      assert rs[..0] == [] && rs[0..] == rs;
    } else {
      EncodeSplit(rs[1..], k - 1, recsize);
      assert rs[..k][0] == rs[0] && rs[..k][1..] == rs[1..][..k - 1] && rs[k..] == rs[1..][k - 1..];
    }
  }

  /** Where record number `k` lies in the stream. */
  lemma RecordAt(rs: seq<seq<byte>>, k: nat, recsize: nat)
    requires (recsize == 1 || recsize == 2) && k < |rs|
    ensures var c, at := Encode(rs, recsize), |Encode(rs[..k], recsize)|;
      var r := Header(|rs[k]|, recsize) + rs[k];
      && at + |r| <= |c| && c[at..at + |r|] == r
      && |Encode(rs[..k + 1], recsize)| == at + |r|
  {
    EncodeSplit(rs, k, recsize);
    EncodeMore(rs[..k], rs[k], recsize);
    assert rs[..k + 1] == rs[..k] + [rs[k]];
    assert rs[k..][0] == rs[k] && rs[k..][1..] == rs[k + 1..];
  }

  // ---- what the two sides do in record mode

  /** The length that the reader has seen in front of the record. */
  function SeenLen(got: map<nat, byte>, recsize: nat): nat
    requires (recsize == 1 || recsize == 2) && forall i: nat :: i < recsize ==> i in got
  {
    if recsize == 1 then got[0] else got[0] + 256 * (got[1] as nat)
  }

  ghost predicate IsRecord(s: seq<byte>, recsize: nat)
    requires recsize == 1 || recsize == 2
  {
    exists r: seq<byte> :: |r| <= MaxRecord(recsize) && s == Header(|r|, recsize) + r
  }

  /** __kfifo_in_r, __kfifo_out_peek_r, __kfifo_out_r and __kfifo_skip_r, step by step: the reader goes on after
      reading that the fifo is empty only to publish nothing. */
  ghost predicate InRecords(s: Fifo<byte>, step: Step<byte>, recsize: nat)
    requires recsize == 1 || recsize == 2
  {
    match step
    case WBegin(buf, whole) => whole && IsRecord(buf, recsize)
    case RPublish(n) =>
      n == 0 || (s.reader.Reading? && (forall i: nat :: i < recsize ==> i in s.reader.got)
                 && n == recsize + SeenLen(s.reader.got, recsize))
    case _ => true
  }

  ghost predicate CanRunRecords(s: Fifo<byte>, steps: seq<Step<byte>>, recsize: nat)
    requires recsize == 1 || recsize == 2
    decreases steps
  {
    steps == [] ||
    (Enabled(s, steps[0]) && InRecords(s, steps[0], recsize) && CanRunRecords(Next(s, steps[0]), steps[1..], recsize))
  }

  // how many records the reader takes
  function TakenRecords(steps: seq<Step<byte>>): nat {
    if steps == [] then 0 else (if Taken(steps[0]) > 0 then 1 else 0) + TakenRecords(steps[1..])
  }

  /** The records published. */
  function PublishedRecords(s: Fifo<byte>, steps: seq<Step<byte>>, recsize: nat): seq<seq<byte>>
    requires (recsize == 1 || recsize == 2) && CanRunRecords(s, steps, recsize)
    decreases steps
  {
    if steps == [] then []
    else NewRecord(s, steps[0], recsize) + PublishedRecords(Next(s, steps[0]), steps[1..], recsize)
  }

  function NewRecord(s: Fifo<byte>, step: Step<byte>, recsize: nat): seq<seq<byte>>
    requires Enabled(s, step)
  {
    if step.WPublish? && recsize <= |s.writer.vals| then [s.writer.vals[recsize..]] else []
  }

  // ---- the invariant

  /** `rs` are the records written so far, of which the reader has taken `k`. */
  ghost predicate RecordInv(s: Fifo<byte>, rs: seq<seq<byte>>, k: nat, recsize: nat)
    requires recsize == 1 || recsize == 2
  {
    RecordsOk(rs, recsize) && k <= |rs| && Inv(s, LogOf(rs, k, recsize)) && SidesOk(s, rs, k, recsize)
  }

  function LogOf(rs: seq<seq<byte>>, k: nat, recsize: nat): Log<byte>
    requires (recsize == 1 || recsize == 2) && k <= |rs|
  {
    Log(Encode(rs, recsize), |Encode(rs[..k], recsize)|)
  }

  // the writer is about to publish a record, and what the reader may look at ends with one
  ghost predicate SidesOk(s: Fifo<byte>, rs: seq<seq<byte>>, k: nat, recsize: nat)
    requires (recsize == 1 || recsize == 2) && k <= |rs|
  {
    && (s.writer.Writing? ==> IsRecord(s.writer.vals, recsize))
    && (s.reader.Reading? ==> Covers(s.reader.avail, rs, k, recsize))
  }

  ghost predicate Covers(avail: nat, rs: seq<seq<byte>>, k: nat, recsize: nat)
    requires (recsize == 1 || recsize == 2) && k <= |rs|
  {
    exists m: nat :: k <= m <= |rs| && |Encode(rs[..k], recsize)| + avail == |Encode(rs[..m], recsize)|
  }

  lemma EncodeGrows(rs: seq<seq<byte>>, j: nat, m: nat, recsize: nat)
    requires (recsize == 1 || recsize == 2) && j <= m <= |rs|
    ensures |Encode(rs[..j], recsize)| <= |Encode(rs[..m], recsize)|
  {
    EncodeSplit(rs[..m], j, recsize);
    assert rs[..m][..j] == rs[..j];
  }

  // if there is anything to look at, the next record is
  lemma WholeCovered(avail: nat, rs: seq<seq<byte>>, k: nat, recsize: nat)
    requires (recsize == 1 || recsize == 2) && k <= |rs| && Covers(avail, rs, k, recsize) && avail > 0
    ensures k < |rs| && recsize + |rs[k]| <= avail
  {
    var m: nat :| k <= m <= |rs| && |Encode(rs[..k], recsize)| + avail == |Encode(rs[..m], recsize)|;
    assert k < m;
    RecordAt(rs, k, recsize);
    EncodeGrows(rs, k + 1, m, recsize);
  }

  /** What the reader finds at the front is the next record, all of it, with its length. */
  lemma NextRecord(s: Fifo<byte>, rs: seq<seq<byte>>, k: nat, recsize: nat)
    requires (recsize == 1 || recsize == 2) && RecordInv(s, rs, k, recsize) && s.reader.Reading? && s.reader.avail > 0
    ensures k < |rs| && recsize + |rs[k]| <= s.reader.avail
    ensures SeesRecord(s.reader.got, rs[k], recsize)
    ensures (forall i: nat :: i < recsize ==> i in s.reader.got) ==> SeenLen(s.reader.got, recsize) == |rs[k]|
  {
    WholeCovered(s.reader.avail, rs, k, recsize);
    GotRecord(s.reader.got, rs, k, recsize);
    if forall i: nat :: i < recsize ==> i in s.reader.got {
      LengthSeen(s.reader.got, rs[k], recsize);
    }
  }

  /** What has been read is what is written in these places. */
  ghost predicate SeesRecord(got: map<nat, byte>, r: seq<byte>, recsize: nat)
    requires recsize == 1 || recsize == 2
  {
    forall i: nat :: i in got && i < recsize + |r| ==> got[i] == (Header(|r|, recsize) + r)[i]
  }

  lemma GotRecord(got: map<nat, byte>, rs: seq<seq<byte>>, k: nat, recsize: nat)
    requires (recsize == 1 || recsize == 2) && k < |rs|
    requires var l := LogOf(rs, k, recsize);
      forall i: nat :: i in got ==> l.consumed + i < |l.written| && got[i] == l.written[l.consumed + i]
    ensures SeesRecord(got, rs[k], recsize)
  {
    RecordAt(rs, k, recsize);
    var l, r := LogOf(rs, k, recsize), Header(|rs[k]|, recsize) + rs[k];
    forall i: nat | i in got && i < |r|
      ensures got[i] == r[i]
    {
      assert l.written[l.consumed..l.consumed + |r|][i] == l.written[l.consumed + i];
    }
  }

  lemma LengthSeen(got: map<nat, byte>, r: seq<byte>, recsize: nat)
    requires (recsize == 1 || recsize == 2) && SeesRecord(got, r, recsize) && |r| <= MaxRecord(recsize)
    requires forall i: nat :: i < recsize ==> i in got
    ensures SeenLen(got, recsize) == |r|
  {
    LengthComesBack(|r|, recsize);
    assert got[0] == (Header(|r|, recsize) + r)[0];
    if recsize == 2 {
      assert got[1] == (Header(|r|, recsize) + r)[1];
    }
  }

  // ---- the steps

  function TakenNow(step: Step<byte>): nat { if Taken(step) > 0 then 1 else 0 }

  lemma PublishesRecord(s: Fifo<byte>, rs: seq<seq<byte>>, k: nat, recsize: nat)
    requires (recsize == 1 || recsize == 2) && RecordsOk(rs, recsize) && k <= |rs| && SidesOk(s, rs, k, recsize)
    requires Enabled(s, WPublish)
    ensures var rs' := rs + NewRecord(s, WPublish, recsize);
      && RecordsOk(rs', recsize) && SidesOk(Next(s, WPublish), rs', k, recsize)
      && LogOf(rs', k, recsize) == NextLog(s, LogOf(rs, k, recsize), WPublish)
  {
    var r: seq<byte> :| |r| <= MaxRecord(recsize) && s.writer.vals == Header(|r|, recsize) + r;
    MoreWritten(rs, r, k, s.writer.vals, recsize);
    if s.reader.Reading? {
      CoversMore(s.reader.avail, rs, r, k, recsize);
    }
  }

  lemma MoreWritten(rs: seq<seq<byte>>, r: seq<byte>, k: nat, vals: seq<byte>, recsize: nat)
    requires (recsize == 1 || recsize == 2) && RecordsOk(rs, recsize) && k <= |rs|
    requires |r| <= MaxRecord(recsize) && vals == Header(|r|, recsize) + r
    ensures recsize <= |vals| && vals[recsize..] == r && RecordsOk(rs + [r], recsize)
    ensures var l := LogOf(rs, k, recsize); LogOf(rs + [r], k, recsize) == l.(written := l.written + vals)
  {
    EncodeMore(rs, r, recsize);
    assert (rs + [r])[..k] == rs[..k];
    assert Encode(rs, recsize) + Header(|r|, recsize) + r == Encode(rs, recsize) + vals;
  }

  lemma CoversMore(avail: nat, rs: seq<seq<byte>>, r: seq<byte>, k: nat, recsize: nat)
    requires (recsize == 1 || recsize == 2) && k <= |rs| && Covers(avail, rs, k, recsize)
    ensures Covers(avail, rs + [r], k, recsize)
  {
    var m: nat :| k <= m <= |rs| && |Encode(rs[..k], recsize)| + avail == |Encode(rs[..m], recsize)|;
    assert (rs + [r])[..m] == rs[..m] && (rs + [r])[..k] == rs[..k];
  }

  lemma BeginsReading(s: Fifo<byte>, rs: seq<seq<byte>>, k: nat, recsize: nat)
    requires (recsize == 1 || recsize == 2) && RecordInv(s, rs, k, recsize)
    ensures Covers(Len(s), rs, k, recsize)
  {
    LenIs(s, LogOf(rs, k, recsize));
    assert rs[..|rs|] == rs;
  }

  lemma TakesRecord(s: Fifo<byte>, rs: seq<seq<byte>>, k: nat, n: nat, recsize: nat)
    requires (recsize == 1 || recsize == 2) && RecordInv(s, rs, k, recsize) && Enabled(s, RPublish(n)) && n > 0
    requires InRecords(s, RPublish(n), recsize)
    ensures k < |rs| && NextLog(s, LogOf(rs, k, recsize), RPublish(n)) == LogOf(rs, k + 1, recsize)
  {
    NextRecord(s, rs, k, recsize);
    RecordAt(rs, k, recsize);
  }

  lemma RecordStep(s: Fifo<byte>, rs: seq<seq<byte>>, k: nat, step: Step<byte>, recsize: nat)
    requires (recsize == 1 || recsize == 2) && RecordInv(s, rs, k, recsize)
    requires Enabled(s, step) && InRecords(s, step, recsize)
    ensures RecordInv(Next(s, step), rs + NewRecord(s, step, recsize), k + TakenNow(step), recsize)
  {
    StepKeeps(s, LogOf(rs, k, recsize), step);
    if step.WPublish? {
      PublishesRecord(s, rs, k, recsize);
    } else {
      assert rs + [] == rs;
      if step.RBegin? {
        BeginsReading(s, rs, k, recsize);
      } else if Taken(step) > 0 {
        TakesRecord(s, rs, k, step.n, recsize);
      }
    }
  }

  // RecordInv, under a name that proofs do not unfold: the recursion on `seal` does nothing else.
  ghost predicate Hold(s: Fifo<byte>, rs: seq<seq<byte>>, k: nat, recsize: nat, seal: nat)
    decreases seal, rs
  {
    if seal > 0 then Hold(s, rs, k, recsize, seal - 1) else (recsize == 1 || recsize == 2) && RecordInv(s, rs, k, recsize)
  }

  lemma HoldIs(s: Fifo<byte>, rs: seq<seq<byte>>, k: nat, recsize: nat)
    ensures Hold(s, rs, k, recsize, SEAL) <==> (recsize == 1 || recsize == 2) && RecordInv(s, rs, k, recsize)
  {
    assert Hold(s, rs, k, recsize, 3) <==> Hold(s, rs, k, recsize, 2);
    assert Hold(s, rs, k, recsize, 2) <==> Hold(s, rs, k, recsize, 1);
    assert Hold(s, rs, k, recsize, 1) <==> Hold(s, rs, k, recsize, 0);
  }

  lemma StepHolds(s: Fifo<byte>, rs: seq<seq<byte>>, k: nat, step: Step<byte>, recsize: nat)
    requires Hold(s, rs, k, recsize, SEAL) && (recsize == 1 || recsize == 2)
    requires Enabled(s, step) && InRecords(s, step, recsize)
    ensures Hold(Next(s, step), rs + NewRecord(s, step, recsize), k + TakenNow(step), recsize, SEAL)
  {
    HoldIs(s, rs, k, recsize);
    RecordStep(s, rs, k, step, recsize);
    HoldIs(Next(s, step), rs + NewRecord(s, step, recsize), k + TakenNow(step), recsize);
  }

  lemma {:induction false} RecordsKept(s: Fifo<byte>, rs: seq<seq<byte>>, k: nat, steps: seq<Step<byte>>, recsize: nat)
    requires (recsize == 1 || recsize == 2) && Hold(s, rs, k, recsize, SEAL) && CanRunRecords(s, steps, recsize)
    ensures CanRun(s, steps)
    ensures Hold(After(s, steps), rs + PublishedRecords(s, steps, recsize), k + TakenRecords(steps), recsize, SEAL)
    decreases steps
  {
    if steps == [] {
      assert rs + [] == rs;
    } else {
      var s', r, k' := Next(s, steps[0]), NewRecord(s, steps[0], recsize), k + TakenNow(steps[0]);
      StepHolds(s, rs, k, steps[0], recsize);
      RecordsKept(s', rs + r, k', steps[1..], recsize);
      Regroup(rs, r, PublishedRecords(s', steps[1..], recsize));
      FirstStep(s, steps, recsize);
    }
  }

  lemma FirstStep(s: Fifo<byte>, steps: seq<Step<byte>>, recsize: nat)
    requires (recsize == 1 || recsize == 2) && steps != [] && CanRunRecords(s, steps, recsize)
    requires CanRun(Next(s, steps[0]), steps[1..])
    ensures var s', rest := Next(s, steps[0]), steps[1..];
      && CanRun(s, steps) && After(s, steps) == After(s', rest)
      && PublishedRecords(s, steps, recsize) == NewRecord(s, steps[0], recsize) + PublishedRecords(s', rest, recsize)
      && TakenRecords(steps) == TakenNow(steps[0]) + TakenRecords(rest)
  {
  }

  lemma Regroup(a: seq<seq<byte>>, b: seq<seq<byte>>, c: seq<seq<byte>>)
    ensures (a + b) + c == a + (b + c)
  {
  }

  /** After any interleaving of one writer and one reader of records: the reader has taken as many records as it
      says, in the order in which they were published; and when the fifo is not empty for it, what it sees at
      the front, however far it has read, is the next record, whole and with its length. */
  lemma WholeRecords(data: seq<byte>, steps: seq<Step<byte>>, recsize: nat)
    requires 0 < |data| <= 0x8000_0000 && TWO32 % |data| == 0 && (recsize == 1 || recsize == 2)
    requires CanRunRecords(Fresh(data), steps, recsize)
    ensures CanRun(Fresh(data), steps)
    ensures var s, rs, k := After(Fresh(data), steps), PublishedRecords(Fresh(data), steps, recsize), TakenRecords(steps);
      && k <= |rs| && Sound(s, Encode(rs, recsize), |Encode(rs[..k], recsize)|)
      && (s.reader.Reading? && s.reader.avail > 0 ==>
            k < |rs| && recsize + |rs[k]| <= s.reader.avail && SeesRecord(s.reader.got, rs[k], recsize))
  {
    FreshHolds(data, [], recsize);
    WholeFrom(Fresh(data), [], steps, recsize);
  }

  lemma WholeFrom(s: Fifo<byte>, none: seq<seq<byte>>, steps: seq<Step<byte>>, recsize: nat)
    requires (recsize == 1 || recsize == 2) && Hold(s, none, 0, recsize, SEAL) && none == [] && CanRunRecords(s, steps, recsize)
    ensures CanRun(s, steps)
    ensures var s', rs, k := After(s, steps), PublishedRecords(s, steps, recsize), TakenRecords(steps);
      && k <= |rs| && Sound(s', Encode(rs, recsize), |Encode(rs[..k], recsize)|)
      && (s'.reader.Reading? && s'.reader.avail > 0 ==>
            k < |rs| && recsize + |rs[k]| <= s'.reader.avail && SeesRecord(s'.reader.got, rs[k], recsize))
  {
    RecordsKept(s, none, 0, steps, recsize);
    assert none + PublishedRecords(s, steps, recsize) == PublishedRecords(s, steps, recsize);
    RecordsSound(After(s, steps), PublishedRecords(s, steps, recsize), TakenRecords(steps), recsize);
  }

  lemma FreshHolds(data: seq<byte>, none: seq<seq<byte>>, recsize: nat)
    requires 0 < |data| <= 0x8000_0000 && TWO32 % |data| == 0 && (recsize == 1 || recsize == 2) && none == []
    ensures Hold(Fresh(data), none, 0, recsize, SEAL)
  {
    HoldIs(Fresh(data), none, 0, recsize);
  }

  lemma RecordsSound(s: Fifo<byte>, rs: seq<seq<byte>>, k: nat, recsize: nat)
    requires (recsize == 1 || recsize == 2) && Hold(s, rs, k, recsize, SEAL)
    ensures k <= |rs| && Sound(s, Encode(rs, recsize), |Encode(rs[..k], recsize)|)
    ensures s.reader.Reading? && s.reader.avail > 0 ==>
      k < |rs| && recsize + |rs[k]| <= s.reader.avail && SeesRecord(s.reader.got, rs[k], recsize)
  {
    HoldIs(s, rs, k, recsize);
    InvIsSound(s, Encode(rs, recsize), |Encode(rs[..k], recsize)|);
    FrontIsRecord(s, rs, k, recsize);
  }

  lemma FrontIsRecord(s: Fifo<byte>, rs: seq<seq<byte>>, k: nat, recsize: nat)
    requires (recsize == 1 || recsize == 2) && RecordInv(s, rs, k, recsize)
    ensures s.reader.Reading? && s.reader.avail > 0 ==>
      k < |rs| && recsize + |rs[k]| <= s.reader.avail && SeesRecord(s.reader.got, rs[k], recsize)
  {
    if s.reader.Reading? && s.reader.avail > 0 {
      NextRecord(s, rs, k, recsize);
    }
  }
}
