/**
 One reader and one writer on the fifo of compat/kfifo.c without locks: index reads, copies of single
 elements in any order, and index updates interleave freely. Indices are 32-bit and wrap around.
 */
module FifoProtocol {
  import opened Arithmetic
  import opened Words

  /** Between reading the other side's index and publishing its own: the writer has room for all of `vals`
      and has copied those at `done`; the reader may read `avail` elements and has read those in `got`. */
  datatype Writer<T> = WIdle | Writing(vals: seq<T>, done: set<nat>)
  datatype Reader<T> = RIdle | Reading(avail: nat, got: map<nat, T>)

  // `ins` and `outs` are the indices in and out
  datatype Fifo<T> = Fifo(size: nat, data: seq<T>, ins: nat, outs: nat, writer: Writer<T>, reader: Reader<T>)

  datatype Step<T> =
    | WBegin(buf: seq<T>, whole: bool)
    | WCopy(i: nat)
    | WPublish
    | RBegin
    | RCopy(i: nat)
    | RPublish(n: nat)

  // fifo->in - fifo->out as unsigned int
  function Len<T>(s: Fifo<T>): nat { (s.ins - s.outs) % TWO32 }

  // kfifo_unused, as unsigned int
  function Unused<T>(s: Fifo<T>): nat { (s.size - Len(s)) % TWO32 }

  function Place<T>(s: Fifo<T>, index: nat, i: nat): nat
    requires s.size > 0
  {
    (index + i) % TWO32 % s.size
  }

  ghost predicate Enabled<T>(s: Fifo<T>, step: Step<T>) {
    match step
    case WBegin(_, _) => s.writer.WIdle?
    case WCopy(i) => s.writer.Writing? && i < |s.writer.vals| && 0 < s.size == |s.data|
    case WPublish => s.writer.Writing? && forall i :: 0 <= i < |s.writer.vals| ==> i in s.writer.done
    case RBegin => s.reader.RIdle?
    case RCopy(i) => s.reader.Reading? && i < s.reader.avail && 0 < s.size == |s.data|
    case RPublish(n) => s.reader.Reading? && n <= s.reader.avail
  }

  /** The writer takes as much of `buf` as there is room for, or in record mode all of it or nothing. The
      reader may publish any number of the elements it was allowed to read: none is a peek. */
  function Next<T>(s: Fifo<T>, step: Step<T>): Fifo<T>
    requires Enabled(s, step)
  {
    match step
    case WBegin(buf, whole) =>
      if |buf| <= Unused(s) then s.(writer := Writing(buf, {}))
      else if whole then s else s.(writer := Writing(buf[..Unused(s)], {}))
    case WCopy(i) =>
      s.(data := s.data[Place(s, s.ins, i) := s.writer.vals[i]], writer := s.writer.(done := s.writer.done + {i}))
    case WPublish => s.(ins := (s.ins + |s.writer.vals|) % TWO32, writer := WIdle)
    case RBegin => s.(reader := Reading(Len(s), map[]))
    case RCopy(i) => s.(reader := s.reader.(got := s.reader.got[i := s.data[Place(s, s.outs, i)]]))
    case RPublish(n) => s.(outs := (s.outs + n) % TWO32, reader := RIdle)
  }

  /** Everything published so far, and how much of it the reader has consumed. */
  datatype Log<T> = Log(written: seq<T>, consumed: nat)

  function NextLog<T>(s: Fifo<T>, l: Log<T>, step: Step<T>): Log<T>
    requires Enabled(s, step)
  {
    match step
    case WPublish => l.(written := l.written + s.writer.vals)
    case RPublish(n) => l.(consumed := l.consumed + n)
    case _ => l
  }

  // Element number `k` of all that is ever written has its cell at `k` modulo the size.
  ghost predicate Holds<T>(s: Fifo<T>, k: nat, x: T) {
    s.size > 0 && |s.data| == s.size && s.data[k % s.size] == x
  }

  ghost predicate Inv<T>(s: Fifo<T>, l: Log<T>) {
    && 0 < s.size == |s.data| && s.size <= 0x8000_0000 && TWO32 % s.size == 0
    && s.ins == |l.written| % TWO32 && s.outs == l.consumed % TWO32
    && l.consumed <= |l.written| <= l.consumed + s.size
    && (forall k :: l.consumed <= k < |l.written| ==> Holds(s, k, l.written[k]))
    && (s.writer.Writing? ==>
          && |l.written| + |s.writer.vals| <= l.consumed + s.size
          && forall i: nat :: i in s.writer.done && i < |s.writer.vals| ==> Holds(s, |l.written| + i, s.writer.vals[i]))
    && (s.reader.Reading? ==>
          && l.consumed + s.reader.avail <= |l.written|
          && forall i: nat :: i in s.reader.got ==> i < s.reader.avail && s.reader.got[i] == l.written[l.consumed + i])
  }

  // ---- wrapping indices

  /** A power of two at most 2^32 divides it, so wrapping at 2^32 does not move a cell. */
  lemma CellOf(k: nat, size: nat)
    requires size > 0 && TWO32 % size == 0
    ensures k % TWO32 % size == k % size
  {
    var q, c := k / TWO32, TWO32 / size;
    assert TWO32 == c * size;
    assert k == k % TWO32 + q * TWO32;
    assert q * TWO32 == (q * c) * size by {
      Associate(q, c, size);
    }
    ModMultiple(k % TWO32, q * c, size);
  }

  /** in - out modulo 2^32 is the number of unread elements. */
  lemma LenIs<T>(s: Fifo<T>, l: Log<T>)
    requires Inv(s, l)
    ensures Len(s) == |l.written| - l.consumed && Unused(s) == s.size - Len(s)
  {
    var w, r := |l.written|, l.consumed;
    var a, b := w / TWO32, r / TWO32;
    assert w - r == (s.ins - s.outs) + (a - b) * TWO32;
    ModMultiple(s.ins - s.outs, a - b, TWO32);
    DivModIs(w - r, TWO32, 0, w - r);
  }

  /** Elements less than a whole size apart are in different cells. */
  lemma CellsDiffer(j: nat, k: nat, size: nat)
    requires size > 0 && j < k < j + size
    ensures j % size != k % size
  {
    var a, r := j / size, j % size;
    assert j == a * size + r;
    if k % size == r {
      var b := k / size;
      assert k == b * size + r;
      Distribute(b - a, a, size);
      MulAtLeast(b - a, size);
    }
  }

  lemma PlaceIs<T>(s: Fifo<T>, abs: nat, i: nat)
    requires s.size > 0 && TWO32 % s.size == 0
    ensures Place(s, abs % TWO32, i) == (abs + i) % s.size
  {
    ModAdd(abs, i, TWO32);
    CellOf(abs + i, s.size);
  }

  // ---- the steps

  lemma BeginKeeps<T>(s: Fifo<T>, l: Log<T>, step: Step<T>)
    requires Inv(s, l) && Enabled(s, step) && (step.WBegin? || step.RBegin?)
    ensures Inv(Next(s, step), NextLog(s, l, step))
  {
    LenIs(s, l);
    var s' := Next(s, step);
    forall k | l.consumed <= k < |l.written|
      ensures Holds(s', k, l.written[k])
    {
      assert Holds(s, k, l.written[k]);
    }
    Carried(s, s', l);
  }

  // what is in the buffer stays there when only indices and bookkeeping change
  lemma Carried<T>(s: Fifo<T>, s': Fifo<T>, l: Log<T>)
    requires Inv(s, l) && s'.data == s.data && s'.size == s.size
    ensures forall k :: l.consumed <= k < |l.written| ==> Holds(s', k, l.written[k])
    ensures s.writer.Writing? ==> forall i: nat :: i in s.writer.done && i < |s.writer.vals| ==> Holds(s', |l.written| + i, s.writer.vals[i])
  {
    forall k | l.consumed <= k < |l.written|
      ensures Holds(s', k, l.written[k])
    {
      assert Holds(s, k, l.written[k]);
    }
    if s.writer.Writing? {
      forall i: nat | i in s.writer.done && i < |s.writer.vals|
        ensures Holds(s', |l.written| + i, s.writer.vals[i])
      {
        assert Holds(s, |l.written| + i, s.writer.vals[i]);
      }
    }
  }

  /** A copied element does not overwrite an unread one, nor another one of the same batch. */
  lemma WCopyKeeps<T>(s: Fifo<T>, l: Log<T>, i: nat)
    requires Inv(s, l) && Enabled(s, WCopy(i))
    ensures Inv(Next(s, WCopy(i)), l)
  {
    var s', w := Next(s, WCopy(i)), |l.written|;
    PlaceIs(s, w, i);
    forall k | l.consumed <= k < w
      ensures Holds(s', k, l.written[k])
    {
      assert Holds(s, k, l.written[k]);
      CellsDiffer(k, w + i, s.size);
    }
    forall j: nat | j in s'.writer.done && j < |s.writer.vals|
      ensures Holds(s', w + j, s.writer.vals[j])
    {
      if j < i {
        assert Holds(s, w + j, s.writer.vals[j]);
        CellsDiffer(w + j, w + i, s.size);
      } else if j > i {
        assert Holds(s, w + j, s.writer.vals[j]);
        CellsDiffer(w + i, w + j, s.size);
      }
    }
  }

  lemma WPublishKeeps<T>(s: Fifo<T>, l: Log<T>)
    requires Inv(s, l) && Enabled(s, WPublish)
    ensures Inv(Next(s, WPublish), NextLog(s, l, WPublish))
  {
    var s', l' := Next(s, WPublish), NextLog(s, l, WPublish);
    ModAdd(|l.written|, |s.writer.vals|, TWO32);
    Carried(s, s', l);
    forall k | l'.consumed <= k < |l'.written|
      ensures Holds(s', k, l'.written[k])
    {
      if k >= |l.written| {
        assert k - |l.written| in s.writer.done;
      }
    }
  }

  lemma RCopyKeeps<T>(s: Fifo<T>, l: Log<T>, i: nat)
    requires Inv(s, l) && Enabled(s, RCopy(i))
    ensures Inv(Next(s, RCopy(i)), l)
  {
    PlaceIs(s, l.consumed, i);
    assert Holds(s, l.consumed + i, l.written[l.consumed + i]);
    Carried(s, Next(s, RCopy(i)), l);
  }

  lemma RPublishKeeps<T>(s: Fifo<T>, l: Log<T>, n: nat)
    requires Inv(s, l) && Enabled(s, RPublish(n))
    ensures Inv(Next(s, RPublish(n)), NextLog(s, l, RPublish(n)))
  {
    ModAdd(l.consumed, n, TWO32);
    Carried(s, Next(s, RPublish(n)), l);
  }

  lemma StepKeeps<T>(s: Fifo<T>, l: Log<T>, step: Step<T>)
    requires Inv(s, l) && Enabled(s, step)
    ensures Inv(Next(s, step), NextLog(s, l, step))
  {
    match step
    case WBegin(_, _) => BeginKeeps(s, l, step);
    case RBegin => BeginKeeps(s, l, step);
    case WCopy(i) => WCopyKeeps(s, l, i);
    case WPublish => WPublishKeeps(s, l);
    case RCopy(i) => RCopyKeeps(s, l, i);
    case RPublish(n) => RPublishKeeps(s, l, n);
  }

  // ---- runs

  ghost predicate CanRun<T>(s: Fifo<T>, steps: seq<Step<T>>)
    decreases steps
  {
    steps == [] || (Enabled(s, steps[0]) && CanRun(Next(s, steps[0]), steps[1..]))
  }

  function After<T>(s: Fifo<T>, steps: seq<Step<T>>): Fifo<T>
    requires CanRun(s, steps)
    decreases steps
  {
    if steps == [] then s else After(Next(s, steps[0]), steps[1..])
  }

  /** Everything that the writer publishes in a run, in order. */
  function Written<T>(s: Fifo<T>, steps: seq<Step<T>>): seq<T>
    requires CanRun(s, steps)
    decreases steps
  {
    if steps == [] then [] else Published(s, steps[0]) + Written(Next(s, steps[0]), steps[1..])
  }

  function Published<T>(s: Fifo<T>, step: Step<T>): seq<T>
    requires Enabled(s, step)
  {
    if step.WPublish? then s.writer.vals else []
  }

  function Taken<T>(step: Step<T>): nat {
    if step.RPublish? then step.n else 0
  }

  // how many elements the reader consumes in a run
  function Consumed<T>(steps: seq<Step<T>>): nat {
    if steps == [] then 0 else Taken(steps[0]) + Consumed(steps[1..])
  }

  lemma {:induction false} RunKeeps<T>(s: Fifo<T>, l: Log<T>, steps: seq<Step<T>>)
    requires Inv(s, l) && CanRun(s, steps)
    ensures Inv(After(s, steps), Log(l.written + Written(s, steps), l.consumed + Consumed(steps)))
    decreases steps
  {
    if steps == [] {
      assert l.written + [] == l.written;
    } else {
      StepLogged(s, l, steps[0]);
      var s', w := Next(s, steps[0]), Published(s, steps[0]);
      RunKeeps(s', Log(l.written + w, l.consumed + Taken(steps[0])), steps[1..]);
      assert (l.written + w) + Written(s', steps[1..]) == l.written + (w + Written(s', steps[1..]));
    }
  }

  lemma StepLogged<T>(s: Fifo<T>, l: Log<T>, step: Step<T>)
    requires Inv(s, l) && Enabled(s, step)
    ensures Inv(Next(s, step), Log(l.written + Published(s, step), l.consumed + Taken(step)))
  {
    StepKeeps(s, l, step);
    assert l.written + [] == l.written;
    assert NextLog(s, l, step) == Log(l.written + Published(s, step), l.consumed + Taken(step));
  }

  // __kfifo_init
  function Fresh<T>(data: seq<T>): Fifo<T> {
    Fifo(|data|, data, 0, 0, WIdle, RIdle)
  }

  /** What is used never exceeds the size, unread elements are intact, and every element the reader has got
      hold of is the one written at that position. */
  ghost predicate Sound<T>(s: Fifo<T>, w: seq<T>, r: nat) {
    && r <= |w| && Len(s) == |w| - r <= s.size
    && (forall k :: r <= k < |w| ==> Holds(s, k, w[k]))
    && (s.reader.Reading? ==> forall i: nat :: i in s.reader.got ==> r + i < |w| && s.reader.got[i] == w[r + i])
  }

  lemma InvIsSound<T>(s: Fifo<T>, w: seq<T>, r: nat)
    requires Inv(s, Log(w, r))
    ensures Sound(s, w, r)
  {
    LenIs(s, Log(w, r));
  }

  /** After any interleaving of one reader and one writer, with indices that have wrapped any number of times,
      the reader has got exactly what was written. */
  lemma Lossless<T>(data: seq<T>, steps: seq<Step<T>>)
    requires 0 < |data| <= 0x8000_0000 && TWO32 % |data| == 0 && CanRun(Fresh(data), steps)
    ensures Sound(After(Fresh(data), steps), Written(Fresh(data), steps), Consumed(steps))
  {
    RunKeeps(Fresh(data), Log([], 0), steps);
    assert [] + Written(Fresh(data), steps) == Written(Fresh(data), steps);
    InvIsSound(After(Fresh(data), steps), Written(Fresh(data), steps), Consumed(steps));
  }
}
