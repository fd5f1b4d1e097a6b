/**
 What holds over whole runs of the FQ-CoDel scheduler: every flow is a FIFO, no packet is lost or
 duplicated, and flows that compete for the link get nearly the same number of bytes.
 */
module FqFairness {
  import opened Common
  import opened FqModel

  ghost predicate CanRun(quantum: nat, maxpkt: nat, s: Sched, t: seq<Event>)
    decreases t
  {
    t == [] || (WellFormed(s) && Enabled(s, t[0]) && Sensible(maxpkt, t[0]) && CanRun(quantum, maxpkt, Next(quantum, s, t[0]), t[1..]))
  }

  function After(quantum: nat, maxpkt: nat, s: Sched, t: seq<Event>): Sched
    requires CanRun(quantum, maxpkt, s, t)
    decreases t
  {
    if t == [] then s else After(quantum, maxpkt, Next(quantum, s, t[0]), t[1..])
  }

  lemma {:induction false} AfterMore(quantum: nat, maxpkt: nat, s: Sched, t: seq<Event>, e: Event)
    requires CanRun(quantum, maxpkt, s, t)
    requires var r := After(quantum, maxpkt, s, t); WellFormed(r) && Enabled(r, e) && Sensible(maxpkt, e)
    ensures CanRun(quantum, maxpkt, s, t + [e])
    ensures After(quantum, maxpkt, s, t + [e]) == Next(quantum, After(quantum, maxpkt, s, t), e)
    decreases t
  {
    if t == [] {
      var r := Next(quantum, s, e);
      assert (t + [e])[1..] == [];
      assert CanRun(quantum, maxpkt, r, []) && After(quantum, maxpkt, r, []) == r;
    } else {
      assert (t + [e])[1..] == t[1..] + [e];
      AfterMore(quantum, maxpkt, Next(quantum, s, t[0]), t[1..], e);
    }
  }

  lemma {:induction false} RunKeepsOk(quantum: nat, maxpkt: nat, s: Sched, t: seq<Event>)
    requires quantum > 0 && Ok(quantum, maxpkt, s) && CanRun(quantum, maxpkt, s, t)
    ensures Ok(quantum, maxpkt, After(quantum, maxpkt, s, t))
    ensures |After(quantum, maxpkt, s, t).queues| == |s.queues|
    decreases t
  {
    if t != [] {
      OkKept(quantum, maxpkt, s, t[0]);
      ListsKept(quantum, maxpkt, s, t[0]);
      RunKeepsOk(quantum, maxpkt, Next(quantum, s, t[0]), t[1..]);
    }
  }

  // ---- FIFO and conservation

  // the packets that arrive for flow `i`, in order
  function Arrived(t: seq<Event>, i: nat): seq<Packet> {
    if t == [] then []
    else Added(t[0], i) + Arrived(t[1..], i)
  }

  // the packets that one event takes from the head of flow `i`, sent or dropped
  function Taken(s: Sched, e: Event, i: nat): seq<Packet>
    requires Enabled(s, e)
  {
    if e.i != i then []
    else match e
      case Overflow(_) => s.queues[i][..1]
      case Serve(_, drops) => s.queues[i][..drops + 1]
      case Starve(_) => s.queues[i]
      case _ => []
  }

  function Gone(quantum: nat, maxpkt: nat, s: Sched, t: seq<Event>, i: nat): seq<Packet>
    requires CanRun(quantum, maxpkt, s, t)
    decreases t
  {
    if t == [] then [] else Taken(s, t[0], i) + Gone(quantum, maxpkt, Next(quantum, s, t[0]), t[1..], i)
  }

  /** Each flow is served in the order of arrival, and every packet is either gone or still queued. */
  lemma {:induction false} Fifo(quantum: nat, maxpkt: nat, s: Sched, t: seq<Event>, i: nat)
    requires CanRun(quantum, maxpkt, s, t) && i < |s.queues|
    ensures i < |After(quantum, maxpkt, s, t).queues|
    ensures s.queues[i] + Arrived(t, i) == Gone(quantum, maxpkt, s, t, i) + After(quantum, maxpkt, s, t).queues[i]
    decreases t
  {
    if t != [] {
      var r := Next(quantum, s, t[0]);
      Fifo(quantum, maxpkt, r, t[1..], i);
      FifoOnce(quantum, s, t[0], i);
      Regroup(s.queues[i], Added(t[0], i), Arrived(t[1..], i), Taken(s, t[0], i), r.queues[i],
              Gone(quantum, maxpkt, r, t[1..], i), After(quantum, maxpkt, r, t[1..]).queues[i]);
    }
  }

  function Added(e: Event, i: nat): seq<Packet> {
    if e.Arrive? && e.i == i then [e.p] else []
  }

  lemma FifoOnce(quantum: nat, s: Sched, e: Event, i: nat)
    requires WellFormed(s) && Enabled(s, e) && i < |s.queues|
    ensures i < |Next(quantum, s, e).queues|
    ensures s.queues[i] + Added(e, i) == Taken(s, e, i) + Next(quantum, s, e).queues[i]
  {
  }

  lemma Regroup(q: seq<Packet>, a: seq<Packet>, arrived: seq<Packet>, g: seq<Packet>, r: seq<Packet>, gone: seq<Packet>, end: seq<Packet>)
    requires q + a == g + r && r + arrived == gone + end
    ensures q + (a + arrived) == g + gone + end
  {
    calc {
      q + (a + arrived);
      (q + a) + arrived;
      g + (r + arrived);
      g + gone + end;
    }
  }

  // ---- fairness

  function Refills(t: seq<Event>, i: nat): nat {
    if t == [] then 0 else (if t[0] == Refill(i) then 1 else 0) + Refills(t[1..], i)
  }

  // the bytes that flow `i` sends
  function Sent(quantum: nat, maxpkt: nat, s: Sched, t: seq<Event>, i: nat): nat
    requires CanRun(quantum, maxpkt, s, t)
    decreases t
  {
    if t == [] then 0
    else
      var first := if t[0].Serve? && t[0].i == i then s.queues[i][t[0].drops].len else 0;
      first + Sent(quantum, maxpkt, Next(quantum, s, t[0]), t[1..], i)
  }

  /** Flow `i` is on the list of old flows all the time. */
  ghost predicate StaysOld(quantum: nat, maxpkt: nat, s: Sched, t: seq<Event>, i: nat)
    requires CanRun(quantum, maxpkt, s, t)
    decreases t
  {
    i in s.oldFlows && (t != [] ==> StaysOld(quantum, maxpkt, Next(quantum, s, t[0]), t[1..], i))
  }

  /** The deficit accounts for every byte: what a flow sends is paid for by its refills. */
  lemma {:induction false} DeficitAccounts(quantum: nat, maxpkt: nat, s: Sched, t: seq<Event>, i: nat)
    requires Ok(quantum, maxpkt, s) && quantum > 0 && CanRun(quantum, maxpkt, s, t) && StaysOld(quantum, maxpkt, s, t, i)
    ensures var r := After(quantum, maxpkt, s, t);
      && i < |s.deficits| && i < |r.deficits| && i in r.oldFlows
      && Sent(quantum, maxpkt, s, t, i) == quantum * Refills(t, i) + s.deficits[i] - r.deficits[i]
    decreases t
  {
    assert i in All(s);
    if t != [] {
      var r := Next(quantum, s, t[0]);
      OkKept(quantum, maxpkt, s, t[0]);
      DeficitAccounts(quantum, maxpkt, r, t[1..], i);
      OneMoreTime(quantum, Refills(t[1..], i));
    }
  }

  lemma OneMoreTime(q: nat, n: nat)
    ensures q * (1 + n) == q * n + q
  {
  }

  ghost predicate Before(l: seq<nat>, a: nat, b: nat) {
    exists i, j :: 0 <= i < j < |l| && l[i] == a && l[j] == b
  }

  lemma OneBefore(l: seq<nat>, a: nat, b: nat)
    requires a in l && b in l && a != b
    ensures Before(l, a, b) || Before(l, b, a)
  {
    var i :| 0 <= i < |l| && l[i] == a;
    var j :| 0 <= j < |l| && l[j] == b;
  }

  /** One event: the order of two old flows changes only when the first of them is refilled, and it is never
      the second one's turn. */
  lemma OrderKept(quantum: nat, maxpkt: nat, s: Sched, e: Event, a: nat, b: nat)
    requires Ok(quantum, maxpkt, s) && Enabled(s, e) && Before(s.oldFlows, a, b)
    requires a in Next(quantum, s, e).oldFlows && b in Next(quantum, s, e).oldFlows
    ensures e != Refill(b)
    ensures var l := Next(quantum, s, e).oldFlows; if e == Refill(a) then Before(l, b, a) else Before(l, a, b)
  {
    var i, j :| 0 <= i < j < |s.oldFlows| && s.oldFlows[i] == a && s.oldFlows[j] == b;
    OldAfter(quantum, s, e);
    OrderOf(s, e, Next(quantum, s, e).oldFlows, i, j);
  }

  lemma OrderOf(s: Sched, e: Event, l': seq<nat>, i: nat, j: nat)
    requires NoDup(All(s)) && i < j < |s.oldFlows|
    requires var l := s.oldFlows;
      if !e.Refill? && !e.Starve? then l' == l
      else if s.newFlows != [] then e.i == s.newFlows[0] && (l' == l + [e.i] || l' == l)
      else e.i == l[0] && l' == if e.Refill? then l[1..] + [e.i] else l[1..]
    requires s.oldFlows[i] in l' && s.oldFlows[j] in l'
    ensures e != Refill(s.oldFlows[j])
    ensures var a, b := s.oldFlows[i], s.oldFlows[j]; if e == Refill(a) then Before(l', b, a) else Before(l', a, b)
  {
    var l := s.oldFlows;
    NoDupParts(s.newFlows, l);
    if !e.Refill? && !e.Starve? {
      Found(l', i, j, l[i], l[j]);
    } else if s.newFlows != [] {
      assert s.newFlows[0] != l[i] && s.newFlows[0] != l[j];
      Found(l', i, j, l[i], l[j]);
    } else {
      OneRemoved(l, l', e.Refill?, i, j);
    }
  }

  lemma NoDupParts(l: seq<nat>, m: seq<nat>)
    requires NoDup(l + m)
    ensures NoDup(m) && forall i, j :: 0 <= i < |l| && 0 <= j < |m| ==> l[i] != m[j]
  {
    var n := |l|;
    forall i, j | 0 <= i < j < |m|
      ensures m[i] != m[j]
    {
      assert (l + m)[n + i] == m[i] && (l + m)[n + j] == m[j];
    }
    forall i, j | 0 <= i < |l| && 0 <= j < |m|
      ensures l[i] != m[j]
    {
      assert (l + m)[i] == l[i] && (l + m)[n + j] == m[j];
    }
  }

  lemma Found(l: seq<nat>, i: nat, j: nat, a: nat, b: nat)
    requires i < j < |l| && l[i] == a && l[j] == b
    ensures Before(l, a, b)
  {
  }

  // the head of the list moves to its end, or leaves it
  lemma OneRemoved(l: seq<nat>, l': seq<nat>, back: bool, i: nat, j: nat)
    requires NoDup(l) && i < j < |l| && l[i] in l'
    requires l' == if back then l[1..] + [l[0]] else l[1..]
    ensures l[0] != l[j]
    ensures if l[0] == l[i] then back && Before(l', l[j], l[i]) else Before(l', l[i], l[j])
  {
    if i == 0 {
      Tail(l);
      MovedBack(l, j, l[0], l[j]);
    } else {
      Shifted(l, i, j, l[0]);
    }
  }

  // what an event does to the list of old flows
  lemma OldAfter(quantum: nat, s: Sched, e: Event)
    requires WellFormed(s) && Enabled(s, e) && s.oldFlows != []
    ensures var l, l' := s.oldFlows, Next(quantum, s, e).oldFlows;
      if !e.Refill? && !e.Starve? then l' == l
      else if s.newFlows != [] then e.i == s.newFlows[0] && l' == l + [e.i]
      else e.i == l[0] && All(s) == l && l' == if e.Refill? then l[1..] + [e.i] else l[1..]
  {
  }

  lemma MovedBack(l: seq<nat>, j: nat, a: nat, b: nat)
    requires 0 < j < |l| && l[0] == a && l[j] == b
    ensures Before(l[1..] + [a], b, a)
  {
    var m := l[1..] + [a];
    assert m[j - 1] == b && m[|l| - 1] == a;
  }

  lemma Shifted(l: seq<nat>, i: nat, j: nat, x: nat)
    requires 0 < i < j < |l|
    ensures Before(l[1..], l[i], l[j]) && Before(l[1..] + [x], l[i], l[j])
  {
    var m, m' := l[1..], l[1..] + [x];
    assert m[i - 1] == l[i] && m[j - 1] == l[j] && m'[i - 1] == l[i] && m'[j - 1] == l[j];
  }

  /** Two flows that stay old are refilled in turn. */
  lemma {:induction false} RefillsAlternate(quantum: nat, maxpkt: nat, s: Sched, t: seq<Event>, a: nat, b: nat)
    requires quantum > 0 && Ok(quantum, maxpkt, s) && CanRun(quantum, maxpkt, s, t)
    requires StaysOld(quantum, maxpkt, s, t, a) && StaysOld(quantum, maxpkt, s, t, b) && Before(s.oldFlows, a, b)
    ensures Refills(t, b) <= Refills(t, a) <= Refills(t, b) + 1
    decreases t
  {
    if t != [] {
      var r := Next(quantum, s, t[0]);
      OkKept(quantum, maxpkt, s, t[0]);
      OrderKept(quantum, maxpkt, s, t[0], a, b);
      if t[0] == Refill(a) {
        RefillsAlternate(quantum, maxpkt, r, t[1..], b, a);
      } else {
        RefillsAlternate(quantum, maxpkt, r, t[1..], a, b);
      }
    }
  }

  /** Deficit round robin is fair: whatever else happens, two flows that stay on the list of old flows are
      refilled equally often up to one, and what they send differs by less than three quanta and two
      packets of the largest size. */
  lemma Fair(quantum: nat, maxpkt: nat, s: Sched, t: seq<Event>, a: nat, b: nat)
    requires quantum > 0 && Ok(quantum, maxpkt, s) && CanRun(quantum, maxpkt, s, t) && a != b
    requires StaysOld(quantum, maxpkt, s, t, a) && StaysOld(quantum, maxpkt, s, t, b)
    ensures -1 <= Refills(t, a) - Refills(t, b) <= 1
    ensures var d := Sent(quantum, maxpkt, s, t, a) - Sent(quantum, maxpkt, s, t, b);
      -(3 * quantum + 2 * maxpkt) < d < 3 * quantum + 2 * maxpkt
  {
    OneBefore(s.oldFlows, a, b);
    if Before(s.oldFlows, a, b) {
      RefillsAlternate(quantum, maxpkt, s, t, a, b);
    } else {
      RefillsAlternate(quantum, maxpkt, s, t, b, a);
    }
    DeficitAccounts(quantum, maxpkt, s, t, a);
    DeficitAccounts(quantum, maxpkt, s, t, b);
    RunKeepsOk(quantum, maxpkt, s, t);
    var r := After(quantum, maxpkt, s, t);
    Bounded(quantum, maxpkt, s, a);
    Bounded(quantum, maxpkt, s, b);
    Bounded(quantum, maxpkt, r, a);
    Bounded(quantum, maxpkt, r, b);
    ByOne(quantum, Refills(t, a), Refills(t, b));
  }

  lemma Bounded(quantum: nat, maxpkt: nat, s: Sched, i: nat)
    requires Ok(quantum, maxpkt, s) && i in s.oldFlows
    ensures i < |s.deficits| && -(maxpkt as int) < s.deficits[i] <= quantum
  {
    assert i in All(s);
    assert FlowOk(quantum, maxpkt, s, i);
  }

  lemma ByOne(q: nat, m: nat, n: nat)
    requires -1 <= m - n <= 1
    ensures -(q as int) <= q * m - q * n <= q
  {
    assert m == n + 1 ==> q * m == q * n + q;
    assert n == m + 1 ==> q * n == q * m + q;
  }
}
